/** Shared vocabulary of the three converters: Option and Result (a thrown
    Error becomes a Failure), JavaScript object records kept as ordered
    key/value sequences, and the two string primitives the converters use
    (`String.prototype.includes` and `String.prototype.replace` with a
    string pattern). */
module Common {

  datatype Option<+T> = None | Some(value: T)

  /** Everything the converters throw, one constructor per `throw`. */
  datatype Error =
    | UnknownPrimitiveType(primitive: string)
    | UnknownContainerType(container: string)
    | UnknownTypeReference(reference: string)
    | UnrecognizedNestedSchema
    | UnknownNonArrayType(schemaType: string)
    | NotAReference
    | MissingOperationId
    | MissingSuccessResponse(operationId: string)
    | MissingRequestBody(operationId: string)
    | InlineBodyUnsupported
    | UnconvertibleBody
    | ReferenceParameter(ref: string)
    | NonPathParameter(name: string)
    | ReferenceParameterSchema(location: string)
    | MissingParameterSchema(name: string)
    | MissingParameterType(name: string)
    | ListParameter(name: string)
    | UnsupportedParameterType(name: string)

  datatype Result<+T> = Ok(value: T) | Failure(error: Error) {
    predicate IsFailure() { Failure? }
    function PropagateFailure<U>(): Result<U> requires Failure? { Failure(error) }
    function Extract(): T requires Ok? { value }
  }

  // ---------------------------------------------------------------------
  // Records: a JavaScript object as the ordered list of its entries.
  // ---------------------------------------------------------------------

  type Record<V> = seq<(string, V)>

  function Keys<V>(r: Record<V>): (ks: seq<string>)
    ensures |ks| == |r|
    ensures forall i :: 0 <= i < |r| ==> ks[i] == r[i].0
  {
    if r == [] then [] else [r[0].0] + Keys(r[1..])
  }

  predicate Distinct(ks: seq<string>) {
    forall i, j :: 0 <= i < j < |ks| ==> ks[i] != ks[j]
  }

  /** `obj[k]`: the value of the entry for `k`, if any. */
  function Lookup<V>(r: Record<V>, k: string): (v: Option<V>)
    ensures v.Some? <==> k in Keys(r)
  {
    if r == [] then None
    else if r[0].0 == k then Some(r[0].1)
    else Lookup(r[1..], k)
  }

  /** `obj[k] = v`: an existing entry keeps its position and takes the new
      value; a new key is appended (JavaScript insertion order). */
  function Put<V>(r: Record<V>, k: string, v: V): (r': Record<V>)
    ensures Lookup(r', k) == Some(v)
    ensures forall j :: j != k ==> Lookup(r', j) == Lookup(r, j)
    ensures Keys(r') == if k in Keys(r) then Keys(r) else Keys(r) + [k]
  {
    if r == [] then [(k, v)]
    else if r[0].0 == k then [(k, v)] + r[1..]
    else
      var rest := Put(r[1..], k, v);
      PutStep(r, k, v, rest);
      [r[0]] + rest
  }

  /** The recursive case of `Put`: an entry for another key in front of
      a record that already holds the update. */
  lemma PutStep<V>(r: Record<V>, k: string, v: V, rest: Record<V>)
    requires r != [] && r[0].0 != k
    requires Lookup(rest, k) == Some(v)
    requires forall j :: j != k ==> Lookup(rest, j) == Lookup(r[1..], j)
    requires Keys(rest) == if k in Keys(r[1..]) then Keys(r[1..]) else Keys(r[1..]) + [k]
    ensures Lookup([r[0]] + rest, k) == Some(v)
    ensures forall j :: j != k ==> Lookup([r[0]] + rest, j) == Lookup(r, j)
    ensures Keys([r[0]] + rest) == if k in Keys(r) then Keys(r) else Keys(r) + [k]
  {
    ConsFacts(r[0], r[1..]);
    ConsFacts(r[0], rest);
    assert r == [r[0]] + r[1..];
    assert k in Keys(r) <==> k in Keys(r[1..]);
    if k !in Keys(r[1..]) {
      AppendAssoc([r[0].0], Keys(r[1..]), [k]);
    }
  }

  /** Keys and lookups of a record with one entry in front. */
  lemma ConsFacts<V>(h: (string, V), t: Record<V>)
    ensures Keys([h] + t) == [h.0] + Keys(t)
    ensures forall j :: Lookup([h] + t, j) == if h.0 == j then Some(h.1) else Lookup(t, j)
  {
    assert ([h] + t)[0] == h && ([h] + t)[1..] == t;
  }

  /** `for (const [k, v] of Object.entries(s)) r[k] = v;` */
  function PutAll<V>(r: Record<V>, s: Record<V>): (r': Record<V>)
    decreases |s|
  {
    if s == [] then r
    else Put(PutAll(r, s[..|s| - 1]), s[|s| - 1].0, s[|s| - 1].1)
  }

  /** Copies entries into a record in order, as the loops over
      `Object.entries(...)` that assign `r[k] = v` do. */
  method MergeEntries<V>(into: Record<V>, entries: Record<V>) returns (merged: Record<V>)
    ensures merged == PutAll(into, entries)
  {
    merged := into;
    var j := 0;
    while j < |entries|
      invariant 0 <= j <= |entries|
      invariant merged == PutAll(into, entries[..j])
    {
      assert entries[..j + 1][..j] == entries[..j];
      merged := Put(merged, entries[j].0, entries[j].1);
      j := j + 1;
    }
    assert entries[..j] == entries;
  }

  /** Lookup in a record built by appending one more entry. */
  lemma {:induction false} LookupSnoc<V>(r: Record<V>, k: string, v: V, j: string)
    ensures Lookup(r + [(k, v)], j) ==
            if j in Keys(r) then Lookup(r, j) else if j == k then Some(v) else None
    decreases |r|
  {
    if r != [] {
      assert (r + [(k, v)])[1..] == r[1..] + [(k, v)];
      LookupSnoc(r[1..], k, v, j);
    }
  }

  /** Merging entries with `PutAll` is last-write-wins: an entry of `s` wins,
      keys absent from `s` keep their old value. */
  lemma {:induction false} PutAllLookup<V>(r: Record<V>, s: Record<V>, j: string)
    requires Distinct(Keys(s))
    ensures Lookup(PutAll(r, s), j) == if j in Keys(s) then Lookup(s, j) else Lookup(r, j)
    decreases |s|
  {
    if s != [] {
      var n := |s| - 1;
      var init := s[..n];
      assert s == init + [s[n]];
      assert Keys(init) == Keys(s)[..n];
      PutAllLookup(r, init, j);
      LookupSnoc(init, s[n].0, s[n].1, j);
      if j == s[n].0 {
        assert j !in Keys(init);
      }
    }
  }

  /** The keys of a merge: the old keys in place, then the new ones in
      order of first appearance. */
  lemma {:induction false} PutAllKeys<V>(r: Record<V>, s: Record<V>, k: string)
    ensures k in Keys(PutAll(r, s)) <==> k in Keys(r) || k in Keys(s)
    decreases |s|
  {
    if s != [] {
      var n := |s| - 1;
      assert Keys(s) == Keys(s[..n]) + [s[n].0];
      PutAllKeys(r, s[..n], k);
    }
  }

  /** Every entry of a merge comes from one side or the other. */
  lemma {:induction false} PutAllMember<V>(r: Record<V>, s: Record<V>, e: (string, V))
    requires e in PutAll(r, s)
    ensures e in r || e in s
    decreases |s|
  {
    if s != [] {
      var n := |s| - 1;
      var prev := PutAll(r, s[..n]);
      if e != s[n] {
        PutMember(prev, s[n].0, s[n].1, e);
        PutAllMember(r, s[..n], e);
      }
    }
  }

  lemma {:induction false} PutMember<V>(r: Record<V>, k: string, v: V, e: (string, V))
    requires e in Put(r, k, v) && e != (k, v)
    ensures e in r
    decreases |r|
  {
    if r != [] && r[0].0 != k {
      var rest := Put(r[1..], k, v);
      assert Put(r, k, v) == [r[0]] + rest;
      if e != r[0] {
        PutMember(r[1..], k, v, e);
      }
    }
  }

  lemma AppendAssoc<T>(a: seq<T>, b: seq<T>, c: seq<T>)
    ensures (a + b) + c == a + (b + c)
  {
  }

  /** Storing a key the record lacks appends its entry. */
  lemma {:induction false} PutFresh<V>(r: Record<V>, k: string, v: V)
    requires k !in Keys(r)
    ensures Put(r, k, v) == r + [(k, v)]
  {
    if r != [] {
      ConsFacts(r[0], r[1..]);
      assert r == [r[0]] + r[1..];
      PutFresh(r[1..], k, v);
      AppendAssoc([r[0]], r[1..], [(k, v)]);
    }
  }

  /** A record built only by `Put` never repeats a key. */
  lemma PutDistinct<V>(r: Record<V>, k: string, v: V)
    requires Distinct(Keys(r))
    ensures Distinct(Keys(Put(r, k, v)))
  {
  }

  // ---------------------------------------------------------------------
  // Strings
  // ---------------------------------------------------------------------

  predicate OccursAt(s: string, pat: string, i: nat) {
    i + |pat| <= |s| && s[i..i + |pat|] == pat
  }

  function IndexFrom(s: string, pat: string, i: nat): (r: Option<nat>)
    requires i <= |s| + 1
    ensures r.Some? ==> i <= r.value && OccursAt(s, pat, r.value)
    ensures r.Some? ==> forall m :: i <= m < r.value ==> !OccursAt(s, pat, m)
    ensures r.None? ==> forall m :: i <= m ==> !OccursAt(s, pat, m)
    decreases |s| + 1 - i
  {
    if i + |pat| > |s| then None
    else if s[i..i + |pat|] == pat then Some(i)
    else IndexFrom(s, pat, i + 1)
  }

  /** `s.indexOf(pat)`, the first position where `pat` occurs. */
  function IndexOf(s: string, pat: string): (r: Option<nat>)
    ensures r.Some? ==> OccursAt(s, pat, r.value)
    ensures r.Some? ==> forall m :: 0 <= m < r.value ==> !OccursAt(s, pat, m)
    ensures r.None? ==> forall m :: 0 <= m ==> !OccursAt(s, pat, m)
  {
    IndexFrom(s, pat, 0)
  }

  /** `s.includes(pat)` */
  predicate Includes(s: string, pat: string) {
    IndexOf(s, pat).Some?
  }

  /** `s.replace(pat, "")` with a string pattern: only the first occurrence
      is removed. */
  function RemoveFirst(s: string, pat: string): (r: string)
    ensures IndexOf(s, pat).None? ==> r == s
    ensures IndexOf(s, pat).Some? ==>
              var i := IndexOf(s, pat).value; r == s[..i] + s[i + |pat|..]
  {
    match IndexOf(s, pat)
    case None => s
    case Some(i) => s[..i] + s[i + |pat|..]
  }
}
