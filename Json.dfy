/**
 * JSON documents as `JSON.parse` hands them to the scripts. An object's
 * fields are kept in JavaScript's property enumeration order, which is also
 * the order `JSON.stringify` writes them in. Numbers are exact rationals.
 */
module JsonValues {
  import opened Wrappers

  datatype Json =
    | JNull
    | JBool(b: bool)
    | JNumber(n: real)
    | JString(str: string)
    | JArray(items: seq<Json>)
    | JObject(fields: seq<(string, Json)>)

  type Fields = seq<(string, Json)>

  /** JavaScript truthiness of a parsed value. */
  predicate Truthy(j: Json)
  {
    match j
    case JNull => false
    case JBool(b) => b
    case JNumber(n) => n != 0.0
    case JString(s) => s != ""
    case _ => true
  }

  function Keys(fs: Fields): (ks: seq<string>)
    ensures |ks| == |fs|
    ensures forall i :: 0 <= i < |fs| ==> ks[i] == fs[i].0
    decreases |fs|
  {
    if fs == [] then [] else [fs[0].0] + Keys(fs[1..])
  }

  predicate DistinctKeys(fs: Fields)
  {
    forall i, j :: 0 <= i < j < |fs| ==> fs[i].0 != fs[j].0
  }

  /** What `JSON.parse` produces: no object, at any depth, has a key twice. */
  predicate WellFormed(j: Json)
    decreases j
  {
    match j
    case JArray(items) => forall i :: 0 <= i < |items| ==> WellFormed(items[i])
    case JObject(fs) => DistinctKeys(fs) && forall i :: 0 <= i < |fs| ==> WellFormed(fs[i].1)
    case _ => true
  }

  /** `obj[key]`, absent keys giving `None` (JavaScript's `undefined`). */
  function Lookup(fs: Fields, key: string): (r: Option<Json>)
    ensures r.None? <==> key !in Keys(fs)
    decreases |fs|
  {
    if fs == [] then None
    else if fs[0].0 == key then Some(fs[0].1)
    else Lookup(fs[1..], key)
  }

  /** In an object without duplicate keys, the entry at a given index is what `Lookup` finds. */
  lemma {:induction false} LookupAt(fs: Fields, i: nat)
    requires DistinctKeys(fs) && i < |fs|
    ensures Lookup(fs, fs[i].0) == Some(fs[i].1)
    decreases i
  {
    if i > 0 {
      LookupAt(fs[1..], i - 1);
    }
  }

  /**
   * `obj[key] = v`: an existing key keeps its position and gets the new
   * value; a new key is appended.
   */
  function Put(fs: Fields, key: string, v: Json): (r: Fields)
    ensures Keys(r) == if key in Keys(fs) then Keys(fs) else Keys(fs) + [key]
    ensures Lookup(r, key) == Some(v)
    ensures forall k :: k != key ==> Lookup(r, k) == Lookup(fs, k)
    decreases |fs|
  {
    if fs == [] then [(key, v)]
    else if fs[0].0 == key then [(key, v)] + fs[1..]
    else [fs[0]] + Put(fs[1..], key, v)
  }

  /** Every entry of `Put` is the new one or an old one. */
  lemma {:induction false} PutEntries(fs: Fields, key: string, v: Json)
    ensures forall e :: e in Put(fs, key, v) ==> e == (key, v) || e in fs
    decreases |fs|
  {
    if fs != [] && fs[0].0 != key {
      PutEntries(fs[1..], key, v);
    }
  }

  lemma PutKeepsDistinct(fs: Fields, key: string, v: Json)
    requires DistinctKeys(fs)
    ensures DistinctKeys(Put(fs, key, v))
  {
    var r := Put(fs, key, v);
    forall i, j | 0 <= i < j < |r| ensures r[i].0 != r[j].0 {
      assert Keys(r)[i] == r[i].0 && Keys(r)[j] == r[j].0;
      if key !in Keys(fs) && j == |fs| {
        assert Keys(r)[i] == Keys(fs)[i];
      }
    }
  }

  /** An assignment to a parsed object leaves a parsed object when the value is one. */
  lemma PutWellFormed(fs: Fields, key: string, v: Json)
    requires WellFormed(JObject(fs)) && WellFormed(v)
    ensures WellFormed(JObject(Put(fs, key, v)))
  {
    var r := Put(fs, key, v);
    PutKeepsDistinct(fs, key, v);
    PutEntries(fs, key, v);
    forall i | 0 <= i < |r| ensures WellFormed(r[i].1) {
      assert r[i] in r;
      if r[i] != (key, v) {
        var j :| 0 <= j < |fs| && fs[j] == r[i];
      }
    }
  }

  /** The fields after the first of a parsed object form a parsed object. */
  lemma WellFormedTail(fs: Fields)
    requires fs != [] && WellFormed(JObject(fs))
    ensures WellFormed(fs[0].1) && WellFormed(JObject(fs[1..]))
  {
    var tail := fs[1..];
    forall i, j | 0 <= i < j < |tail| ensures tail[i].0 != tail[j].0 {
      assert tail[i] == fs[i + 1] && tail[j] == fs[j + 1];
    }
    forall i | 0 <= i < |tail| ensures WellFormed(tail[i].1) {
      assert tail[i] == fs[i + 1];
    }
  }

  /** Fields with the keys of fields without repeats have no repeats either. */
  lemma SameKeysDistinct(fs: Fields, gs: Fields)
    requires DistinctKeys(fs) && Keys(gs) == Keys(fs)
    ensures DistinctKeys(gs)
  {
    forall i, j | 0 <= i < j < |gs| ensures gs[i].0 != gs[j].0 {
      assert Keys(gs)[i] == fs[i].0 && Keys(gs)[j] == fs[j].0;
    }
  }

  /** Writing the value a key already has changes nothing. */
  lemma {:induction false} PutSame(fs: Fields, key: string, v: Json)
    requires Lookup(fs, key) == Some(v)
    ensures Put(fs, key, v) == fs
    decreases |fs|
  {
    if fs != [] && fs[0].0 != key {
      PutSame(fs[1..], key, v);
    }
  }

  /** The object rest pattern `{ key, ...rest }`: every entry but `key`'s, in order. */
  function Remove(fs: Fields, key: string): (r: Fields)
    ensures key !in Keys(r)
    decreases |fs|
  {
    if fs == [] then []
    else if fs[0].0 == key then Remove(fs[1..], key)
    else [fs[0]] + Remove(fs[1..], key)
  }

  /** `delete obj[key]` leaves every other property as it was. */
  lemma {:induction false} RemoveLookup(fs: Fields, key: string, k: string)
    requires k != key
    ensures Lookup(Remove(fs, key), k) == Lookup(fs, k)
    decreases |fs|
  {
    if fs != [] {
      RemoveLookup(fs[1..], key, k);
    }
  }

  /** Removing a key that is not there changes nothing. */
  lemma {:induction false} RemoveAbsent(fs: Fields, key: string)
    requires key !in Keys(fs)
    ensures Remove(fs, key) == fs
    decreases |fs|
  {
    if fs != [] {
      RemoveAbsent(fs[1..], key);
    }
  }

  /**
   * In an object without duplicate keys, removing the key at index `i` leaves
   * the entries before and after it, in their order.
   */
  lemma RemoveAt(fs: Fields, key: string, i: nat)
    requires DistinctKeys(fs) && i < |fs| && fs[i].0 == key
    ensures Remove(fs, key) == fs[..i] + fs[i + 1..]
  {
    var before, after := fs[..i], fs[i + 1..];
    assert fs == before + ([fs[i]] + after);
    assert key !in Keys(before) by {
      forall j | 0 <= j < |before| ensures Keys(before)[j] != key {
        assert before[j] == fs[j];
      }
    }
    assert key !in Keys(after) by {
      forall j | 0 <= j < |after| ensures Keys(after)[j] != key {
        assert after[j] == fs[i + 1 + j];
      }
    }
    RemoveConcat(before, [fs[i]] + after, key);
    RemoveAbsent(before, key);
    assert ([fs[i]] + after)[1..] == after;
    RemoveAbsent(after, key);
  }

  /** Removing a key from a concatenation removes it from each part. */
  lemma {:induction false} RemoveConcat(a: Fields, b: Fields, key: string)
    ensures Remove(a + b, key) == Remove(a, key) + Remove(b, key)
    decreases |a|
  {
    if a == [] {
      assert a + b == b;
    } else {
      assert (a + b)[1..] == a[1..] + b;
      RemoveConcat(a[1..], b, key);
    }
  }
}
