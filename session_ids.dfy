/** Session identifiers: `str_replace('.', '', uniqid('sess_', true))`, and the
    composite cache keys `id . '.' . key` built from them. */
module SessionIds {

  /** The prefix every adapter passes to `uniqid`. */
  const SessionPrefix: string := "sess_"

  /** `str_replace('.', '', s)`: `s` with every '.' removed. */
  function StripDots(s: string): (r: string)
    ensures '.' !in r
    ensures |r| <= |s|
    ensures '.' !in s ==> r == s
  {
    if s == [] then []
    else if s[0] == '.' then StripDots(s[1..])
    else [s[0]] + StripDots(s[1..])
  }

  /** Removing dots distributes over concatenation. */
  lemma {:induction false} StripDotsAppend(a: string, b: string)
    ensures StripDots(a + b) == StripDots(a) + StripDots(b)
  {
    if a == [] {
      assert a + b == b;
    } else {
      assert (a + b)[0] == a[0];
      assert (a + b)[1..] == a[1..] + b;
      StripDotsAppend(a[1..], b);
      if a[0] != '.' {
        assert StripDots(a + b) == [a[0]] + (StripDots(a[1..]) + StripDots(b));
      }
    }
  }

  /** `uniqid($prefix, true)`: the prefix followed by clock- and
      entropy-derived characters, which the caller supplies. */
  function Uniqid(prefix: string, entropy: string): (r: string)
    ensures |prefix| <= |r| && r[..|prefix|] == prefix
  {
    prefix + entropy
  }

  /** The identifier `regenerateId()` assigns, for the given `uniqid` entropy. */
  function NewId(entropy: string): (id: string)
    ensures |SessionPrefix| <= |id| && id[..|SessionPrefix|] == SessionPrefix
    ensures NoDot(id)
  {
    StripDotsAppend(SessionPrefix, entropy);
    StripDots(Uniqid(SessionPrefix, entropy))
  }

  predicate NoDot(s: string)
  {
    '.' !in s
  }

  /** The cache key under which a per-key adapter stores `key` of session `id`. */
  function CompositeKey(id: string, key: string): (r: string)
    ensures |r| == |id| + 1 + |key|
    ensures r[..|id|] == id && r[|id|] == '.' && r[|id| + 1..] == key
  {
    id + "." + key
  }

  /** In the composite key of a dot-free id, the first '.' sits right after the id. */
  lemma FirstDot(id: string, key: string)
    requires NoDot(id)
    ensures |CompositeKey(id, key)| == |id| + 1 + |key|
    ensures CompositeKey(id, key)[|id|] == '.'
    ensures forall i :: 0 <= i < |id| ==> CompositeKey(id, key)[i] != '.'
    ensures CompositeKey(id, key)[..|id|] == id
    ensures CompositeKey(id, key)[|id| + 1..] == key
  {
    var c := CompositeKey(id, key);
    forall i | 0 <= i < |id| ensures c[i] != '.' {
      assert c[i] == id[i];
    }
  }

  /** For dot-free ids, `id . '.' . key` determines both the id and the key. */
  lemma CompositeKeyInjective(id1: string, key1: string, id2: string, key2: string)
    requires NoDot(id1) && NoDot(id2)
    requires CompositeKey(id1, key1) == CompositeKey(id2, key2)
    ensures id1 == id2 && key1 == key2
  {
    FirstDot(id1, key1);
    FirstDot(id2, key2);
    var c := CompositeKey(id1, key1);
    // both lengths are the position of the first '.' in c
    assert c[|id1|] == '.' && c[|id2|] == '.';
    assert |id1| == |id2|;
  }

  /** A composite key is never the bare id of a session. */
  lemma CompositeKeyNotBareId(id: string, key: string, other: string)
    requires NoDot(other)
    ensures CompositeKey(id, key) != other
  {
    var c := CompositeKey(id, key);
    assert c[|id|] == '.';
  }

  /** `k` begins with `id . '.'`: it is one of session `id`'s per-key entries. */
  predicate IsKeyOf(k: string, id: string)
  {
    |id| < |k| && k[..|id| + 1] == id + "."
  }

  /** A bare id is no session's per-key entry. */
  lemma BareIdNotKeyOf(other: string, id: string)
    requires NoDot(other)
    ensures !IsKeyOf(other, id)
  {
    if |id| < |other| {
      assert other[..|id| + 1][|id|] == other[|id|];
      assert (id + ".")[|id|] == '.';
    }
  }

  /** A composite key belongs to exactly the session whose id it was built from. */
  lemma CompositeKeyOwner(owner: string, key: string, id: string)
    requires NoDot(owner) && NoDot(id)
    ensures IsKeyOf(CompositeKey(owner, key), id) <==> owner == id
  {
    var c := CompositeKey(owner, key);
    FirstDot(owner, key);
    if IsKeyOf(c, id) {
      FirstDot(id, c[|id| + 1..]);
      assert c == CompositeKey(id, c[|id| + 1..]) by {
        assert c == c[..|id| + 1] + c[|id| + 1..];
      }
      CompositeKeyInjective(owner, key, id, c[|id| + 1..]);
    }
    if owner == id {
      assert c[..|id| + 1] == id + ".";
    }
  }
}
