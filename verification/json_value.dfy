/** The value tree `json.loads` returns: `None`, `bool`, `int`, `float`,
    `str`, `list` and `dict`, with a dict's key order and last-write-wins
    semantics for repeated keys. */
module JsonValue {
  import opened Results

  /** A decoded JSON value. `Float` keeps the lexeme of a fractional or
      exponent number, or of `NaN`/`Infinity`/`-Infinity`, without computing
      the floating-point value. `Obj` lists a dict's entries in insertion order. */
  datatype Json =
    | Null
    | Bool(b: bool)
    | Int(n: int)
    | Float(lexeme: string)
    | Str(s: string)
    | Arr(items: seq<Json>)
    | Obj(members: seq<Member>)

  /** One key/value entry of a dict. */
  datatype Member = Member(key: string, value: Json)

  /** `d.get(k)`: the value of the first entry with key `k`. */
  function Lookup(ms: seq<Member>, k: string): (r: Option<Json>)
    ensures r.None? <==> forall i :: 0 <= i < |ms| ==> ms[i].key != k
    ensures r.Some? ==> exists i :: 0 <= i < |ms| && ms[i] == Member(k, r.value)
  {
    if |ms| == 0 then None
    else if ms[0].key == k then Some(ms[0].value)
    else
      var r := Lookup(ms[1..], k);
      assert forall i :: 1 <= i < |ms| ==> ms[i] == ms[1..][i - 1];
      r
  }

  /** No key occurs twice: true of every dict. */
  predicate DistinctKeys(ms: seq<Member>) {
    forall i, j :: 0 <= i < j < |ms| ==> ms[i].key != ms[j].key
  }

  /** The value of the LAST entry with key `k` in a list of pairs. */
  function LastValue(ps: seq<Member>, k: string): Option<Json> {
    if |ps| == 0 then None
    else if ps[|ps| - 1].key == k then Some(ps[|ps| - 1].value)
    else LastValue(ps[..|ps| - 1], k)
  }

  /** `d[k] = v` on a dict: an existing key keeps its position and takes the
      new value, a new key is appended. */
  function Put(ms: seq<Member>, k: string, v: Json): (r: seq<Member>)
    ensures Lookup(ms, k).None? ==> r == ms + [Member(k, v)]
    ensures Lookup(ms, k).Some? ==> |r| == |ms|
  {
    if |ms| == 0 then [Member(k, v)]
    else if ms[0].key == k then [Member(k, v)] + ms[1..]
    else
      var tail := Put(ms[1..], k, v);
      var r := [ms[0]] + tail;
      assert r[1..] == tail;
      r
  }

  /** After `d[k] = v`, `k` maps to `v` and every other key to what it
      mapped to before. */
  lemma {:induction false} PutLookup(ms: seq<Member>, k: string, v: Json)
    ensures Lookup(Put(ms, k, v), k) == Some(v)
    ensures forall k' :: k' != k ==> Lookup(Put(ms, k, v), k') == Lookup(ms, k')
  {
    if |ms| > 0 {
      var r := Put(ms, k, v);
      if ms[0].key != k {
        PutLookup(ms[1..], k, v);
        assert r[1..] == Put(ms[1..], k, v);
      } else {
        assert r[1..] == ms[1..];
      }
    }
  }

  /** Putting a key into a dict keeps its keys distinct. */
  lemma {:induction false} PutDistinct(ms: seq<Member>, k: string, v: Json)
    requires DistinctKeys(ms)
    ensures DistinctKeys(Put(ms, k, v))
  {
    if |ms| > 0 {
      DistinctTail(ms);
      var tail := ms[1..];
      if ms[0].key != k {
        PutDistinct(tail, k, v);
        PutLookup(tail, k, v);
        DistinctCons(ms[0], Put(tail, k, v));
      } else {
        DistinctCons(Member(k, v), tail);
      }
    }
  }

  /** The entries after the first of a dict are a dict without the first key. */
  lemma DistinctTail(ms: seq<Member>)
    requires DistinctKeys(ms) && |ms| > 0
    ensures DistinctKeys(ms[1..]) && Lookup(ms[1..], ms[0].key).None?
  {
    var tail := ms[1..];
    forall i | 0 <= i < |tail|
      ensures tail[i] == ms[i + 1]
    {
    }
  }

  /** An entry whose key a dict lacks can go in front of it. */
  lemma DistinctCons(m: Member, tail: seq<Member>)
    requires DistinctKeys(tail) && Lookup(tail, m.key).None?
    ensures DistinctKeys([m] + tail)
  {
    var r := [m] + tail;
    forall i, j | 0 <= i < j < |r|
      ensures r[i].key != r[j].key
    {
      assert r[j] == tail[j - 1];
      if i > 0 {
        assert r[i] == tail[i - 1];
      }
    }
  }


  /** `dict(pairs)`: entries inserted left to right, so a repeated key keeps
      its first position and its last value. */
  function FromPairs(ps: seq<Member>): (r: seq<Member>)
    ensures DistinctKeys(r)
    ensures forall k :: Lookup(r, k) == LastValue(ps, k)
  {
    if |ps| == 0 then []
    else
      var last := ps[|ps| - 1];
      var front := FromPairs(ps[..|ps| - 1]);
      PutDistinct(front, last.key, last.value);
      PutLookup(front, last.key, last.value);
      Put(front, last.key, last.value)
  }

  /** Building a dict from pairs with distinct keys keeps the pairs as they are. */
  lemma {:induction false} FromPairsDistinct(ps: seq<Member>)
    requires DistinctKeys(ps)
    ensures FromPairs(ps) == ps
  {
    if |ps| > 0 {
      var front := ps[..|ps| - 1];
      var last := ps[|ps| - 1];
      assert DistinctKeys(front);
      FromPairsDistinct(front);
      assert Lookup(front, last.key).None? by {
        forall i | 0 <= i < |front|
          ensures front[i].key != last.key
        {
          assert front[i] == ps[i];
        }
      }
      assert front + [last] == ps;
    }
  }

}
