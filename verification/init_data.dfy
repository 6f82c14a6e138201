/**
 * The launch-data check performed by `verifyInitData`: the query-string pairs other
 * than `hash` are formatted as `key=value`, sorted, joined with line feeds, signed
 * with HMAC-SHA256 under a key derived from the bot token, and the lower-case hex
 * digest is compared with the first `hash` value.
 */
module InitData {
  import opened Wrappers
  import opened StringOrder
  import opened Lines

  /** A decoded query-string field, `(key, value)`, in the order the query string lists it. */
  type Pair = (string, string)

  const HASH_KEY: string := "hash"
  const LINE_FEED: char := '\n'

  newtype Byte = x: int | 0 <= x < 256
  type Bytes = seq<Byte>

  /** The primitives the check borrows from Node's `crypto` module and string encoding. */
  datatype Crypto = Crypto(
    hmacSha256: (Bytes, Bytes) -> Bytes,  // (key, message) to digest
    hex: Bytes -> string,                 // lower-case hexadecimal rendering
    utf8: string -> Bytes)                // encoding of a string key or message

  /** `URLSearchParams.get`: the value of the first pair with `key`, or none. */
  function FirstValue(params: seq<Pair>, key: string): (r: Option<string>)
    ensures r.None? <==> forall i :: 0 <= i < |params| ==> params[i].0 != key
    ensures r.Some? ==> (key, r.value) in params
  {
    if params == [] then None
    else if params[0].0 == key then Some(params[0].1)
    else FirstValue(params[1..], key)
  }

  /** The value `FirstValue` reports is that of the earliest pair with the key. */
  lemma {:induction false} FirstValueAt(params: seq<Pair>, key: string, i: nat)
    requires i < |params| && params[i].0 == key
    requires forall j :: 0 <= j < i ==> params[j].0 != key
    ensures FirstValue(params, key) == Some(params[i].1)
    decreases i
  {
    if i > 0 {
      FirstValueAt(params[1..], key, i - 1);
    }
  }

  /** The `filter(([k]) => k !== 'hash')` step. */
  function WithoutHash(params: seq<Pair>): (r: seq<Pair>)
    ensures forall p :: p in r ==> p.0 != HASH_KEY
    ensures forall p :: multiset(r)[p] == if p.0 == HASH_KEY then 0 else multiset(params)[p]
  {
    if params == [] then []
    else
      assert params == [params[0]] + params[1..];
      if params[0].0 == HASH_KEY then WithoutHash(params[1..])
      else [params[0]] + WithoutHash(params[1..])
  }

  /** The `map(([k, v]) => `${k}=${v}`)` step, on one pair. */
  function FormatPair(p: Pair): string
  {
    p.0 + "=" + p.1
  }

  /** A formatted pair is the key, one `=`, then the value. */
  lemma FormatPairLayout(p: Pair)
    ensures |FormatPair(p)| == |p.0| + 1 + |p.1|
    ensures FormatPair(p)[..|p.0|] == p.0 && FormatPair(p)[|p.0|] == '=' && FormatPair(p)[|p.0| + 1..] == p.1
  {
  }

  /** The `map` over all pairs: one string per pair, in the same order. */
  function FormatAll(ps: seq<Pair>): (r: seq<string>)
    ensures |r| == |ps|
    ensures forall i :: 0 <= i < |ps| ==> r[i] == FormatPair(ps[i])
  {
    seq(|ps|, i requires 0 <= i < |ps| => FormatPair(ps[i]))
  }

  lemma FormatAllAppend(a: seq<Pair>, b: seq<Pair>)
    ensures FormatAll(a + b) == FormatAll(a) + FormatAll(b)
  {
  }

  /** Formatting pair by pair turns a reordering of the pairs into a reordering of the strings. */
  lemma {:induction false} FormatAllPermutation(a: seq<Pair>, b: seq<Pair>)
    requires multiset(a) == multiset(b)
    ensures multiset(FormatAll(a)) == multiset(FormatAll(b))
    decreases |a|
  {
    if a == [] {
      assert |b| == |multiset(b)| == 0;
    } else {
      assert a[0] in multiset(b);
      var i :| 0 <= i < |b| && b[i] == a[0];
      var front, back := b[..i], b[i + 1..];
      var rest := front + back;
      assert b == front + [a[0]] + back;
      assert a == [a[0]] + a[1..];
      assert multiset(a[1..]) == multiset(rest) by {
        forall p ensures multiset(a[1..])[p] == multiset(rest)[p] {
          assert multiset(a)[p] == multiset([a[0]])[p] + multiset(a[1..])[p];
          assert multiset(b)[p] == multiset(front)[p] + multiset([a[0]])[p] + multiset(back)[p];
        }
      }
      FormatAllPermutation(a[1..], rest);
      FormatAllAppend([a[0]], a[1..]);
      FormatAllAppend(front + [a[0]], back);
      FormatAllAppend(front, [a[0]]);
      FormatAllAppend(front, back);
    }
  }

  lemma WithoutHashMembers(params: seq<Pair>)
    ensures forall p :: p in WithoutHash(params) <==> p in params && p.0 != HASH_KEY
  {
  }

  lemma FormatAllMembers(ps: seq<Pair>)
    ensures forall e :: e in FormatAll(ps) <==> exists p :: p in ps && e == FormatPair(p)
  {
  }

  lemma SortMembers(s: seq<string>)
    ensures forall e :: e in Sort(s) <==> e in s
  {
    forall e ensures e in Sort(s) <==> e in s {
      assert e in Sort(s) <==> e in multiset(Sort(s));
      assert e in s <==> e in multiset(s);
    }
  }

  /** The sorted `key=value` lines of the data-check string (`dataCheckArr`). */
  function CheckEntries(params: seq<Pair>): (r: seq<string>)
    ensures Sorted(r)
    ensures multiset(r) == multiset(FormatAll(WithoutHash(params)))
    ensures forall e :: e in r <==> exists p :: p in params && p.0 != HASH_KEY && e == FormatPair(p)
  {
    WithoutHashMembers(params);
    FormatAllMembers(WithoutHash(params));
    SortMembers(FormatAll(WithoutHash(params)));
    Sort(FormatAll(WithoutHash(params)))
  }

  /** There are no entries exactly when every pair is a `hash` pair, and no entry is empty. */
  lemma EntriesEmpty(params: seq<Pair>)
    ensures CheckEntries(params) == [] <==> forall i :: 0 <= i < |params| ==> params[i].0 == HASH_KEY
    ensures CheckEntries(params) != [] ==> |CheckEntries(params)[0]| > 0
  {
    var entries := CheckEntries(params);
    if exists i :: 0 <= i < |params| && params[i].0 != HASH_KEY {
      var i :| 0 <= i < |params| && params[i].0 != HASH_KEY;
      assert FormatPair(params[i]) in entries;
      assert entries[0] in entries;
      var p :| p in params && p.0 != HASH_KEY && entries[0] == FormatPair(p);
    } else {
      assert WithoutHash(params) == [];
      assert |multiset(entries)| == 0;
    }
  }

  /** `dataCheckString`: the entries joined by line feeds. */
  function CheckString(params: seq<Pair>): (s: string)
    // empty exactly when every pair is a `hash` pair: every entry holds an `=`
    ensures s == [] <==> forall i :: 0 <= i < |params| ==> params[i].0 == HASH_KEY
    // no separator before the first entry or after the last
    ensures CheckEntries(params) != [] ==>
      var entries := CheckEntries(params);
      && |s| >= |entries[0]| && s[..|entries[0]|] == entries[0]
      && |s| >= |entries[|entries| - 1]| && s[|s| - |entries[|entries| - 1]|..] == entries[|entries| - 1]
  {
    EntriesEmpty(params);
    Join(CheckEntries(params), LINE_FEED)
  }

  /** The key derived from the bot token: HMAC-SHA256 keyed by the token over an empty message. */
  function SecretKey(botToken: string, c: Crypto): Bytes
  {
    c.hmacSha256(c.utf8(botToken), [])
  }

  /** `computedHash`: the hex digest the payload is expected to carry. */
  function ExpectedHash(params: seq<Pair>, botToken: string, c: Crypto): string
  {
    c.hex(c.hmacSha256(SecretKey(botToken, c), c.utf8(CheckString(params))))
  }

  /** `verifyInitData` on already-decoded pairs. */
  function VerifyInitData(params: seq<Pair>, botToken: string, c: Crypto): (ok: bool)
    // accepted exactly when the first `hash` value is hex(HMAC(HMAC(token, ""), check string))
    ensures ok <==> FirstValue(params, HASH_KEY) == Some(ExpectedHash(params, botToken, c))
    ensures (forall i :: 0 <= i < |params| ==> params[i].0 != HASH_KEY) ==> !ok
  {
    match FirstValue(params, HASH_KEY)
    case None => false  // `computedHash === null` never holds
    case Some(hash) => ExpectedHash(params, botToken, c) == hash
  }

  /** Reordering the non-`hash` pairs, or changing the `hash` pairs, leaves the check string alone. */
  lemma CheckStringPermutation(a: seq<Pair>, b: seq<Pair>)
    requires multiset(WithoutHash(a)) == multiset(WithoutHash(b))
    ensures CheckString(a) == CheckString(b)
  {
    FormatAllPermutation(WithoutHash(a), WithoutHash(b));
    SortedUnique(CheckEntries(a), CheckEntries(b));
  }

  /** The check string lines are exactly the entries when no key or value holds a line feed. */
  lemma CheckStringLines(params: seq<Pair>)
    requires exists i :: 0 <= i < |params| && params[i].0 != HASH_KEY
    requires forall i :: 0 <= i < |params| ==> LINE_FEED !in params[i].0 && LINE_FEED !in params[i].1
    ensures Split(CheckString(params), LINE_FEED) == CheckEntries(params)
  {
    var entries := CheckEntries(params);
    var i :| 0 <= i < |params| && params[i].0 != HASH_KEY;
    assert FormatPair(params[i]) in entries;
    forall k | 0 <= k < |entries| ensures LINE_FEED !in entries[k] {
      assert entries[k] in entries;
      var p :| p in params && p.0 != HASH_KEY && entries[k] == FormatPair(p);
      var j :| 0 <= j < |params| && params[j] == p;
    }
    SplitJoin(entries, LINE_FEED);
  }

  /** Appending a `hash` pair leaves the non-`hash` pairs as they were. */
  lemma WithoutHashAppendHash(params: seq<Pair>, h: string)
    ensures multiset(WithoutHash(params + [(HASH_KEY, h)])) == multiset(WithoutHash(params))
  {
  }

  /** A payload signed the way the check expects is accepted: append the expected hash and verify. */
  lemma SignedVerifies(params: seq<Pair>, botToken: string, c: Crypto)
    requires forall i :: 0 <= i < |params| ==> params[i].0 != HASH_KEY
    ensures VerifyInitData(params + [(HASH_KEY, ExpectedHash(params, botToken, c))], botToken, c)
  {
    var signed := params + [(HASH_KEY, ExpectedHash(params, botToken, c))];
    WithoutHashAppendHash(params, ExpectedHash(params, botToken, c));
    CheckStringPermutation(signed, params);
    FirstValueAt(signed, HASH_KEY, |params|);
  }

  /** The verdict depends only on the non-`hash` pairs as a multiset and on the first `hash` value. */
  lemma VerifyPermutation(a: seq<Pair>, b: seq<Pair>, botToken: string, c: Crypto)
    requires multiset(WithoutHash(a)) == multiset(WithoutHash(b))
    requires FirstValue(a, HASH_KEY) == FirstValue(b, HASH_KEY)
    ensures VerifyInitData(a, botToken, c) == VerifyInitData(b, botToken, c)
  {
    CheckStringPermutation(a, b);
  }

  /** Once a `hash` pair is present, later `hash` pairs affect neither the check string nor the verdict. */
  lemma VerifyIgnoresLaterHash(params: seq<Pair>, h: string, botToken: string, c: Crypto)
    requires exists i :: 0 <= i < |params| && params[i].0 == HASH_KEY
    ensures CheckString(params + [(HASH_KEY, h)]) == CheckString(params)
    ensures VerifyInitData(params + [(HASH_KEY, h)], botToken, c) == VerifyInitData(params, botToken, c)
  {
    var longer := params + [(HASH_KEY, h)];
    WithoutHashAppendHash(params, h);
    CheckStringPermutation(longer, params);
    var i := FirstHashIndex(params);
    FirstValueAt(longer, HASH_KEY, i);
    FirstValueAt(params, HASH_KEY, i);
  }

  lemma {:induction false} FirstHashIndex(params: seq<Pair>) returns (i: nat)
    requires exists k :: 0 <= k < |params| && params[k].0 == HASH_KEY
    ensures i < |params| && params[i].0 == HASH_KEY
    ensures forall j :: 0 <= j < i ==> params[j].0 != HASH_KEY
  {
    if params[0].0 == HASH_KEY {
      i := 0;
    } else {
      var k :| 0 <= k < |params| && params[k].0 == HASH_KEY;
      assert params[1..][k - 1].0 == HASH_KEY;
      var i' := FirstHashIndex(params[1..]);
      i := i' + 1;
      forall j | 0 <= j < i ensures params[j].0 != HASH_KEY {
        if j > 0 { assert params[j] == params[1..][j - 1]; }
      }
    }
  }
}
