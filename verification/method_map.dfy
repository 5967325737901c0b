/**
 * The `Map<string, Schema>` of registered faker functions, as the list of its
 * entries in insertion order. `Set` and `Get` follow `Map.prototype.set` and
 * `Map.prototype.get`: setting a present key replaces its value in place,
 * setting a new key appends it.
 */
module MethodMap {
  import opened Wrappers
  import opened FakerSchema

  type Methods = seq<(string, Schema)>

  /** `Array.from(map.keys())`: the keys in insertion order. */
  function Keys(m: Methods): (ks: seq<string>)
    ensures |ks| == |m|
  {
    if m == [] then [] else [m[0].0] + Keys(m[1..])
  }

  lemma {:induction false} KeyAt(m: Methods, i: int)
    requires 0 <= i < |m|
    ensures Keys(m)[i] == m[i].0
    decreases |m|
  {
    if i > 0 {
      KeyAt(m[1..], i - 1);
    }
  }

  /** No key occurs twice, as in a JavaScript `Map`. */
  predicate DistinctKeys(m: Methods) {
    forall i, j :: 0 <= i < j < |m| ==> m[i].0 != m[j].0
  }

  /** `map.get(k)`, `None` for `undefined`. */
  function Get(m: Methods, k: string): (r: Option<Schema>)
    ensures r.Some? <==> k in Keys(m)
  {
    if m == [] then None
    else if m[0].0 == k then Some(m[0].1)
    else Get(m[1..], k)
  }

  /**
   * `map.set(k, v)`: afterwards `k` maps to `v`, every other key maps to what
   * it did, and the key order is kept, with `k` appended when it is new.
   */
  function Set(m: Methods, k: string, v: Schema): (r: Methods)
    ensures Get(r, k) == Some(v)
    ensures forall j :: j != k ==> Get(r, j) == Get(m, j)
    ensures DistinctKeys(m) ==> DistinctKeys(r)
    ensures Keys(r) == if k in Keys(m) then Keys(m) else Keys(m) + [k]
  {
    if m == [] then [(k, v)]
    else if m[0].0 == k then
      SetAtHead(m, k, v);
      [(k, v)] + m[1..]
    else
      var rest := Set(m[1..], k, v);
      SetBehindHead(m, k, v, rest);
      [m[0]] + rest
  }

  /** What `Set` promises of `r`, as one predicate for the two cases of its proof. */
  ghost predicate SetsKey(m: Methods, k: string, v: Schema, r: Methods) {
    && Get(r, k) == Some(v)
    && (forall j :: j != k ==> Get(r, j) == Get(m, j))
    && (DistinctKeys(m) ==> DistinctKeys(r))
    && Keys(r) == if k in Keys(m) then Keys(m) else Keys(m) + [k]
  }

  /** Setting the first key replaces its value in place. */
  lemma SetAtHead(m: Methods, k: string, v: Schema)
    requires m != [] && m[0].0 == k
    ensures SetsKey(m, k, v, [(k, v)] + m[1..])
  {
    KeysCons(m[0], m[1..]);
    KeysCons((k, v), m[1..]);
    assert m == [m[0]] + m[1..];
    forall j | j != k ensures Get([(k, v)] + m[1..], j) == Get(m, j) {
      GetCons(m[0], m[1..], j);
      GetCons((k, v), m[1..], j);
    }
    DistinctCons(m[0], m[1..]);
    DistinctCons((k, v), m[1..]);
  }

  /** Setting a key other than the first sets it in the tail and keeps the first entry. */
  lemma SetBehindHead(m: Methods, k: string, v: Schema, rest: Methods)
    requires m != [] && m[0].0 != k
    requires SetsKey(m[1..], k, v, rest)
    ensures SetsKey(m, k, v, [m[0]] + rest)
  {
    GetCons(m[0], rest, k);
    LookupsBehindHead(m, k, v, rest);
    KeysBehindHead(m, k, v, rest);
    DistinctBehindHead(m, k, v, rest);
  }

  lemma LookupsBehindHead(m: Methods, k: string, v: Schema, rest: Methods)
    requires m != [] && m[0].0 != k
    requires forall j :: j != k ==> Get(rest, j) == Get(m[1..], j)
    ensures forall j :: j != k ==> Get([m[0]] + rest, j) == Get(m, j)
  {
    assert m == [m[0]] + m[1..];
    forall j | j != k ensures Get([m[0]] + rest, j) == Get(m, j) {
      GetCons(m[0], m[1..], j);
      GetCons(m[0], rest, j);
    }
  }

  lemma KeysBehindHead(m: Methods, k: string, v: Schema, rest: Methods)
    requires m != [] && m[0].0 != k
    requires Keys(rest) == if k in Keys(m[1..]) then Keys(m[1..]) else Keys(m[1..]) + [k]
    ensures Keys([m[0]] + rest) == if k in Keys(m) then Keys(m) else Keys(m) + [k]
  {
    assert m == [m[0]] + m[1..];
    KeysCons(m[0], m[1..]);
    KeysCons(m[0], rest);
    assert k in Keys(m) <==> k in Keys(m[1..]);
    if k !in Keys(m[1..]) {
      assert [m[0].0] + (Keys(m[1..]) + [k]) == ([m[0].0] + Keys(m[1..])) + [k];
    }
  }

  lemma DistinctBehindHead(m: Methods, k: string, v: Schema, rest: Methods)
    requires m != [] && m[0].0 != k
    requires DistinctKeys(m[1..]) ==> DistinctKeys(rest)
    requires Keys(rest) == if k in Keys(m[1..]) then Keys(m[1..]) else Keys(m[1..]) + [k]
    ensures DistinctKeys(m) ==> DistinctKeys([m[0]] + rest)
  {
    assert m == [m[0]] + m[1..];
    DistinctCons(m[0], m[1..]);
    DistinctCons(m[0], rest);
  }

  lemma KeysCons(x: (string, Schema), rest: Methods)
    ensures Keys([x] + rest) == [x.0] + Keys(rest)
  {
    assert ([x] + rest)[1..] == rest;
  }

  lemma GetCons(x: (string, Schema), rest: Methods, j: string)
    ensures Get([x] + rest, j) == if x.0 == j then Some(x.1) else Get(rest, j)
  {
    assert ([x] + rest)[1..] == rest;
  }

  /** A list is duplicate-free when its tail is and its head's key does not recur. */
  lemma DistinctCons(x: (string, Schema), rest: Methods)
    ensures DistinctKeys([x] + rest) <==> DistinctKeys(rest) && x.0 !in Keys(rest)
  {
    var m := [x] + rest;
    KeysCons(x, rest);
    if DistinctKeys(rest) && x.0 !in Keys(rest) {
      forall i, j | 0 <= i < j < |m| ensures m[i].0 != m[j].0 {
        if i > 0 {
          assert m[i] == rest[i - 1] && m[j] == rest[j - 1];
        } else {
          KeyAt(rest, j - 1);
          assert m[j] == rest[j - 1];
        }
      }
    }
    if DistinctKeys(m) {
      forall i, j | 0 <= i < j < |rest| ensures rest[i].0 != rest[j].0 {
        assert m[i + 1] == rest[i] && m[j + 1] == rest[j];
      }
    }
  }
}
