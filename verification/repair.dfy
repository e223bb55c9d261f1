/** The lenient repair `JSONOutputParser.parse` tries after a failed
    decode: `re.sub(r',\s*}', '}', text)` and then `re.sub(r',\s*]', ']',
    …)`. Each substitution is one left-to-right pass over the text that
    knows nothing of JSON strings. */
module Repair {
  import opened Chars

  /** A comma at `i` that only whitespace separates from a `close`: where
      the pattern `,\s*close` matches. */
  predicate TrailingCommaAt(s: string, i: nat, close: char) {
    i < |s| && s[i] == ',' && SkipPySpace(s, i + 1) < |s| && s[SkipPySpace(s, i + 1)] == close
  }

  /** `re.sub(',\s*' + close, close, s)`: scanning left to right, each
      match is replaced by `close` and the scan resumes after it. */
  function DropCommas(s: string, close: char): (r: string)
    requires close == '}' || close == ']'
    ensures |r| <= |s|
    decreases |s|
  {
    if |s| == 0 then []
    else if TrailingCommaAt(s, 0, close) then
      [close] + DropCommas(s[SkipPySpace(s, 1) + 1..], close)
    else [s[0]] + DropCommas(s[1..], close)
  }

  /** Both substitutions, objects first. */
  function RepairText(s: string): (r: string)
    ensures |r| <= |s|
  {
    DropCommas(DropCommas(s, '}'), ']')
  }

  /** `a` is a subsequence of `b`: `b` with some characters deleted. */
  predicate IsSubseq(a: string, b: string)
    decreases |b|
  {
    |a| <= |b| &&
    (|a| == 0 || (a[0] == b[0] && IsSubseq(a[1..], b[1..])) || IsSubseq(a, b[1..]))
  }

  /** The number of occurrences of `c` in `s`. */
  function Count(s: string, c: char): nat
    decreases |s|
  {
    if |s| == 0 then 0 else (if s[0] == c then 1 else 0) + Count(s[1..], c)
  }

  /** A subsequence of a suffix of `b` is a subsequence of `b`. */
  lemma {:induction false} SubseqOfSuffix(a: string, b: string, n: nat)
    requires n <= |b| && IsSubseq(a, b[n..])
    ensures IsSubseq(a, b)
    decreases n
  {
    if n > 0 {
      assert b[1..][n - 1..] == b[n..];
      SubseqOfSuffix(a, b[1..], n - 1);
    }
  }

  /** Deleting characters twice is deleting characters. */
  lemma {:induction false} SubseqTrans(a: string, b: string, c: string)
    requires IsSubseq(a, b) && IsSubseq(b, c)
    ensures IsSubseq(a, c)
    decreases |c|
  {
    if |a| > 0 {
      if b[0] == c[0] && IsSubseq(b[1..], c[1..]) {
        if a[0] == b[0] && IsSubseq(a[1..], b[1..]) {
          SubseqTrans(a[1..], b[1..], c[1..]);
        } else {
          SubseqTrans(a, b[1..], c[1..]);
        }
      } else {
        SubseqTrans(a, b, c[1..]);
      }
    }
  }

  /** `Count` adds up over a concatenation. */
  lemma {:induction false} CountConcat(a: string, b: string, c: char)
    ensures Count(a + b, c) == Count(a, c) + Count(b, c)
    decreases |a|
  {
    if |a| == 0 {
      assert a + b == b;
    } else {
      assert (a + b)[1..] == a[1..] + b;
      CountConcat(a[1..], b, c);
    }
  }

  /** A string without `c` counts no `c`. */
  lemma {:induction false} CountAbsent(s: string, c: char)
    requires forall k :: 0 <= k < |s| ==> s[k] != c
    ensures Count(s, c) == 0
    decreases |s|
  {
    if |s| > 0 {
      CountAbsent(s[1..], c);
    }
  }

  /** Whitespace skipping reads the same on a suffix, shifted. */
  lemma {:induction false} SkipShift(s: string, n: nat, i: nat)
    requires n + i <= |s|
    ensures SkipPySpace(s[n..], i) + n == SkipPySpace(s, n + i)
    decreases |s| - n - i
  {
    if n + i < |s| && IsPySpace(s[n + i]) {
      SkipShift(s, n, i + 1);
    }
  }

  /** A trailing comma in a suffix is one in the whole text. */
  lemma ShiftTrailing(s: string, i: nat, close: char)
    requires 0 < |s| && TrailingCommaAt(s[1..], i, close)
    ensures TrailingCommaAt(s, i + 1, close)
  {
    SkipShift(s, 1, i + 1);
  }

  /** The pass only deletes characters. */
  lemma {:induction false} DropCommasSubseq(s: string, close: char)
    requires close == '}' || close == ']'
    ensures IsSubseq(DropCommas(s, close), s)
    decreases |s|
  {
    if |s| > 0 {
      if TrailingCommaAt(s, 0, close) {
        var j := SkipPySpace(s, 1);
        var rest := DropCommas(s[j + 1..], close);
        DropCommasSubseq(s[j + 1..], close);
        assert s[j..][1..] == s[j + 1..];
        assert IsSubseq([close] + rest, s[j..]);
        SubseqOfSuffix([close] + rest, s, j);
      } else {
        DropCommasSubseq(s[1..], close);
        assert ([s[0]] + DropCommas(s[1..], close))[1..] == DropCommas(s[1..], close);
      }
    }
  }

  /** A match `,\s*` up to (not including) its bracket holds no character
      that is neither a comma nor whitespace. */
  lemma CountMatched(s: string, close: char, c: char)
    requires TrailingCommaAt(s, 0, close)
    requires c != ',' && !IsPySpace(c)
    ensures Count(s, c) == Count(s[SkipPySpace(s, 1)..], c)
  {
    var j := SkipPySpace(s, 1);
    SkipPySpaceSpaces(s, 1);
    CountAbsent(s[..j], c);
    assert s == s[..j] + s[j..];
    CountConcat(s[..j], s[j..], c);
  }

  /** The pass keeps every character that is neither a comma nor
      whitespace, the brackets and quotes included. */
  lemma {:induction false} DropCommasCount(s: string, close: char, c: char)
    requires close == '}' || close == ']'
    requires c != ',' && !IsPySpace(c)
    ensures Count(DropCommas(s, close), c) == Count(s, c)
    decreases |s|
  {
    if |s| > 0 {
      if TrailingCommaAt(s, 0, close) {
        var j := SkipPySpace(s, 1);
        var rest := DropCommas(s[j + 1..], close);
        DropCommasCount(s[j + 1..], close, c);
        CountMatched(s, close, c);
        assert s[j..][1..] == s[j + 1..];
        assert ([close] + rest)[1..] == rest;
      } else {
        DropCommasCount(s[1..], close, c);
        assert ([s[0]] + DropCommas(s[1..], close))[1..] == DropCommas(s[1..], close);
      }
    }
  }

  /** Without a trailing comma the pass changes nothing. */
  lemma {:induction false} DropCommasNone(s: string, close: char)
    requires close == '}' || close == ']'
    requires forall i :: 0 <= i < |s| ==> !TrailingCommaAt(s, i, close)
    ensures DropCommas(s, close) == s
    decreases |s|
  {
    if |s| > 0 {
      assert !TrailingCommaAt(s, 0, close);
      forall i | 0 <= i < |s[1..]|
        ensures !TrailingCommaAt(s[1..], i, close)
      {
        if TrailingCommaAt(s[1..], i, close) {
          ShiftTrailing(s, i, close);
        }
      }
      DropCommasNone(s[1..], close);
    }
  }

  /** A trailing comma makes the pass delete something. */
  lemma {:induction false} DropCommasShrinks(s: string, close: char, i: nat)
    requires close == '}' || close == ']'
    requires TrailingCommaAt(s, i, close)
    ensures |DropCommas(s, close)| < |s|
    decreases |s|
  {
    if !TrailingCommaAt(s, 0, close) {
      assert i > 0;
      assert s[1..][i - 1..] == s[i..];
      SkipShift(s, 1, i);
      DropCommasShrinks(s[1..], close, i - 1);
    }
  }

  /** The repair only deletes characters, and every character it deletes
      is a comma or whitespace: brackets, quotes and everything else keep
      their number of occurrences. */
  lemma RepairDeletesOnly(s: string)
    ensures IsSubseq(RepairText(s), s)
    ensures forall c :: c != ',' && !IsPySpace(c) ==> Count(RepairText(s), c) == Count(s, c)
  {
    var t := DropCommas(s, '}');
    DropCommasSubseq(s, '}');
    DropCommasSubseq(t, ']');
    SubseqTrans(RepairText(s), t, s);
    forall c | c != ',' && !IsPySpace(c)
      ensures Count(RepairText(s), c) == Count(s, c)
    {
      DropCommasCount(s, '}', c);
      DropCommasCount(t, ']', c);
    }
  }

  /** The repair changes the text exactly when it holds a comma that only
      whitespace separates from a closing bracket. */
  lemma RepairIdentity(s: string)
    ensures RepairText(s) == s <==>
      (forall i :: 0 <= i < |s| ==> !TrailingCommaAt(s, i, '}')) &&
      (forall i :: 0 <= i < |s| ==> !TrailingCommaAt(s, i, ']'))
  {
    if exists i :: 0 <= i < |s| && TrailingCommaAt(s, i, '}') {
      var i :| 0 <= i < |s| && TrailingCommaAt(s, i, '}');
      DropCommasShrinks(s, '}', i);
    } else {
      DropCommasNone(s, '}');
      if exists i :: 0 <= i < |s| && TrailingCommaAt(s, i, ']') {
        var i :| 0 <= i < |s| && TrailingCommaAt(s, i, ']');
        DropCommasShrinks(s, ']', i);
      } else {
        DropCommasNone(s, ']');
      }
    }
  }

  /** The pass is not repeated: of two commas before a brace only the
      second goes, and a second repair would remove the first. */
  lemma OnePassOnly()
    ensures RepairText(",,}") == ",}"
    ensures RepairText(",}") == "}"
  {
    assert TrailingCommaAt(",,}", 1, '}');
  }

  /** A text without `close` has nothing for the pass to delete. */
  lemma DropCommasAbsent(s: string, close: char)
    requires close == '}' || close == ']'
    requires forall k :: 0 <= k < |s| ==> s[k] != close
    ensures DropCommas(s, close) == s
  {
    DropCommasNone(s, close);
  }

  /** A comma-free prefix passes through unchanged. */
  lemma {:induction false} DropCommasPrefix(s: string, close: char, n: nat)
    requires close == '}' || close == ']'
    requires n <= |s| && forall k :: 0 <= k < n ==> s[k] != ','
    ensures DropCommas(s, close) == s[..n] + DropCommas(s[n..], close)
    decreases n
  {
    if n > 0 {
      var t := s[1..];
      DropCommasHead(s, close);
      assert forall k :: 0 <= k < n - 1 ==> t[k] == s[k + 1];
      DropCommasPrefix(t, close, n - 1);
      PrefixSplit(s, n);
      var rest := DropCommas(s[n..], close);
      assert DropCommas(t, close) == t[..n - 1] + rest;
      ConcatAssoc([s[0]], t[..n - 1], rest);
    }
  }

  /** A first character that is not a comma is copied. */
  lemma DropCommasHead(s: string, close: char)
    requires close == '}' || close == ']'
    requires |s| > 0 && s[0] != ','
    ensures DropCommas(s, close) == [s[0]] + DropCommas(s[1..], close)
  {
  }

  lemma ConcatAssoc(a: string, b: string, c: string)
    ensures a + (b + c) == (a + b) + c
  {
  }

  lemma PrefixSplit(s: string, n: nat)
    requires 0 < n <= |s|
    ensures s[1..][n - 1..] == s[n..]
    ensures s[..n] == [s[0]] + s[1..][..n - 1]
  {
  }


  /** A comma directly before a closing bracket is deleted whatever comes
      before it, so one inside a string literal is deleted too. */
  lemma CommaBeforeClose(p: string, q: string, close: char)
    requires close == '}' || close == ']'
    requires forall k :: 0 <= k < |p| ==> p[k] != ','
    ensures DropCommas(p + [',', close] + q, close) == p + [close] + DropCommas(q, close)
  {
    var s := p + [',', close] + q;
    DropCommasPrefix(s, close, |p|);
    assert s[..|p|] == p;
    var u := s[|p|..];
    assert u == [',', close] + q;
    assert TrailingCommaAt(u, 0, close);
    assert u[2..] == q;
  }

  /** No comma of `p` is followed by whitespace that runs to the end of
      `p`: no match of `,\s*close` can start in `p` and end after it. */
  predicate NoOpenRun(p: string) {
    forall i :: 0 <= i < |p| && p[i] == ',' ==> SkipPySpace(p, i + 1) < |p|
  }

  /** Whitespace skipping that stops inside `p` is not affected by what
      follows `p`. */
  lemma {:induction false} SkipPySpaceConcat(p: string, q: string, i: nat)
    requires i <= |p| && SkipPySpace(p, i) < |p|
    ensures SkipPySpace(p + q, i) == SkipPySpace(p, i)
    decreases |p| - i
  {
    assert (p + q)[i] == p[i];
    if IsPySpace(p[i]) {
      SkipPySpaceConcat(p, q, i + 1);
    }
  }

  /** A whitespace run followed by a character that is not whitespace is
      skipped to that character. */
  lemma {:induction false} SkipPySpaceRun(s: string, i: nat, n: nat)
    requires i + n < |s| && !IsPySpace(s[i + n])
    requires forall k :: i <= k < i + n ==> IsPySpace(s[k])
    ensures SkipPySpace(s, i) == i + n
    decreases n
  {
    if n > 0 {
      SkipPySpaceRun(s, i + 1, n - 1);
    }
  }

  /** A suffix of a text without an open run has none either. */
  lemma NoOpenRunSuffix(p: string, n: nat)
    requires n <= |p| && NoOpenRun(p)
    ensures NoOpenRun(p[n..])
  {
    forall i | 0 <= i < |p[n..]| && p[n..][i] == ','
      ensures SkipPySpace(p[n..], i + 1) < |p[n..]|
    {
      SkipShift(p, n, i + 1);
    }
  }

  /** Whether the pass matches at the start of `p + q` is decided
      inside `p`. */
  lemma SplitHead(p: string, q: string, close: char)
    requires 0 < |p| && NoOpenRun(p)
    ensures TrailingCommaAt(p + q, 0, close) == TrailingCommaAt(p, 0, close)
  {
    assert (p + q)[0] == p[0];
    if p[0] == ',' {
      SkipPySpaceConcat(p, q, 1);
      assert (p + q)[SkipPySpace(p, 1)] == p[SkipPySpace(p, 1)];
    }
  }

  /** The pass is local: a text cut after a point no match straddles is
      repaired piece by piece. */
  lemma {:induction false} DropCommasSplit(p: string, q: string, close: char)
    requires close == '}' || close == ']'
    requires NoOpenRun(p)
    ensures DropCommas(p + q, close) == DropCommas(p, close) + DropCommas(q, close)
    decreases |p|
  {
    var s := p + q;
    if |p| == 0 {
      assert s == q;
    } else {
      SplitHead(p, q, close);
      var t := TrailingCommaAt(p, 0, close);
      var n := if t then SkipPySpace(p, 1) + 1 else 1;
      var head := if t then [close] else [p[0]];
      assert s[0] == p[0];
      if t {
        SkipPySpaceConcat(p, q, 1);
      }
      assert DropCommas(s, close) == head + DropCommas(s[n..], close);
      assert DropCommas(p, close) == head + DropCommas(p[n..], close);
      assert s[n..] == p[n..] + q;
      NoOpenRunSuffix(p, n);
      DropCommasSplit(p[n..], q, close);
      ConcatAssoc(head, DropCommas(p[n..], close), DropCommas(q, close));
    }
  }

  /** A match of `,\s*close` becomes `close`, and the scan goes on after
      it. */
  lemma DropCommasRun(w: string, q: string, close: char)
    requires close == '}' || close == ']'
    requires forall k :: 0 <= k < |w| ==> IsPySpace(w[k])
    ensures DropCommas([','] + w + [close] + q, close) == [close] + DropCommas(q, close)
  {
    var s := [','] + w + [close] + q;
    SkipPySpaceRun(s, 1, |w|);
    assert TrailingCommaAt(s, 0, close);
    assert s[|w| + 2..] == q;
  }

  /** `[1,2,]` loses its last comma and keeps the one between the items. */
  lemma RepairList(s: string)
    requires s == "[1,2,]"
    ensures RepairText(s) == "[1,2]"
  {
    DropCommasAbsent(s, '}');
    var p := "[1,2";
    assert SkipPySpace(p, 3) == 3;
    assert NoOpenRun(p);
    assert s == p + ",]";
    DropCommasSplit(p, ",]", ']');
    DropCommasAbsent(p, ']');
    DropCommasRun([], [], ']');
    assert [','] + [] + [']'] + [] == ",]";
  }

  /** `{"a": ",}"}` loses the comma of its string. */
  lemma RepairInsideString(s: string)
    requires s == "{\"a\": \",}\"}"
    ensures RepairText(s) == "{\"a\": \"}\"}"
  {
    var p, q := "{\"a\": \"", "\"}";
    CommaBeforeClose(p, q, '}');
    DropCommasPrefix(q, '}', 2);
    assert q[..2] == q && q[2..] == [];
    assert s == p + [',', '}'] + q;
    var t := p + ['}'] + q;
    assert DropCommas(s, '}') == t;
    assert t == "{\"a\": \"}\"}";
    assert forall k :: 0 <= k < |t| ==> t[k] != ']';
    DropCommasAbsent(t, ']');
  }
}
