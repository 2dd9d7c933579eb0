/** The data of the work builder: resource objects, encoded manifests and manifest works. */
module Manifests {
  import opened Wrappers

  datatype GroupVersionKind = GroupVersionKind(group: string, version: string, kind: string)

  datatype ManifestKey = ManifestKey(gvk: GroupVersionKind, namespace: string, name: string)

  /** The bytes an object encodes to, and their size. */
  datatype Payload = Payload(body: string, size: nat)

  /** A runtime object: what its accessors report and what encoding it gives. */
  datatype Object = Object(key: ManifestKey, accessible: bool, encoded: Option<Payload>)

  /** An encoded manifest. `decoded` is the key found by decoding it, `None` if that fails. */
  datatype Manifest = Manifest(decoded: Option<ManifestKey>, body: string, size: nat)

  datatype ObjectMeta = ObjectMeta(namespace: string, name: string)

  datatype Work = Work(meta: ObjectMeta, manifests: seq<Manifest>)

  datatype BuildError = EncodeFailed | EmptyKindOrVersion | NoAccessor | DecodeFailed

  predicate ValidKey(key: ManifestKey) {
    key.gvk.kind != "" && key.gvk.version != ""
  }

  function GenerateManifestKey(m: Manifest): Result<ManifestKey, BuildError> {
    match m.decoded
    case None => Err(DecodeFailed)
    case Some(key) => if ValidKey(key) then Ok(key) else Err(EmptyKindOrVersion)
  }

  /** Encoding keeps the identity of the object. */
  function EncodeObject(o: Object): Result<Manifest, BuildError> {
    if o.encoded.None? then Err(EncodeFailed)
    else if !ValidKey(o.key) then Err(EmptyKindOrVersion)
    else if !o.accessible then Err(NoAccessor)
    else Ok(Manifest(Some(o.key), o.encoded.value.body, o.encoded.value.size))
  }

  /** The object can become a manifest: it encodes, says its kind and version, and has an accessor. */
  predicate Encodable(o: Object) {
    o.encoded.Some? && o.key.gvk.kind != "" && o.key.gvk.version != "" && o.accessible
  }

  /** The manifest of an object: its key, and the bytes and the size of its encoding. */
  predicate IsEncoding(o: Object, m: Manifest) {
    o.encoded.Some? && m.decoded == Some(o.key) && m.body == o.encoded.value.body && m.size == o.encoded.value.size
  }

  /** Why an object cannot become a manifest; a missing encoding is found first, an accessor last. */
  predicate ObjectError(o: Object, e: BuildError) {
    && !Encodable(o)
    && (e == EncodeFailed <==> o.encoded.None?)
    && (e == NoAccessor <==> o.encoded.Some? && o.key.gvk.kind != "" && o.key.gvk.version != "")
    && (e == EncodeFailed || e == NoAccessor || e == EmptyKindOrVersion)
  }

  lemma EncodeObjectExactly(o: Object)
    ensures EncodeObject(o).Ok? <==> Encodable(o)
    ensures EncodeObject(o).Ok? ==> IsEncoding(o, EncodeObject(o).value)
    ensures EncodeObject(o).Err? ==> ObjectError(o, EncodeObject(o).error)
  {
  }

  /** The manifest decodes to an object that says its kind and version. */
  predicate HasKey(m: Manifest) {
    m.decoded.Some? && m.decoded.value.gvk.kind != "" && m.decoded.value.gvk.version != ""
  }

  lemma GenerateManifestKeyExactly(m: Manifest)
    ensures GenerateManifestKey(m) ==
      if HasKey(m) then Ok(m.decoded.value) else Err(if m.decoded.None? then DecodeFailed else EmptyKindOrVersion)
  {
  }

  predicate Keyed(m: Manifest) {
    GenerateManifestKey(m).Ok?
  }

  predicate AllKeyed(ms: seq<Manifest>) {
    forall i :: 0 <= i < |ms| ==> Keyed(ms[i])
  }

  function KeyOf(m: Manifest): ManifestKey
    requires Keyed(m)
  {
    GenerateManifestKey(m).value
  }

  /** A key to manifest table in which every manifest sits under its own key. */
  ghost predicate Consistent(required: map<ManifestKey, Manifest>) {
    forall k :: k in required ==> GenerateManifestKey(required[k]) == Ok(k)
  }

  function Total(ms: seq<Manifest>): nat {
    if ms == [] then 0 else Total(ms[..|ms| - 1]) + ms[|ms| - 1].size
  }

  lemma {:induction false} TotalAppend(xs: seq<Manifest>, ys: seq<Manifest>)
    ensures Total(xs + ys) == Total(xs) + Total(ys)
  {
    if ys == [] {
      assert xs + ys == xs;
    } else {
      var n := |ys| - 1;
      TotalAppend(xs, ys[..n]);
      assert (xs + ys)[..|xs + ys| - 1] == xs + ys[..n];
    }
  }

  lemma TotalWithout(a: seq<Manifest>, m: Manifest, b: seq<Manifest>)
    ensures Total(a + [m] + b) == Total(a + b) + m.size
  {
    TotalAppend(a + [m], b);
    TotalAppend(a, b);
    assert (a + [m])[..|a|] == a;
  }

  lemma BagWithout(a: seq<Manifest>, m: Manifest, b: seq<Manifest>)
    ensures multiset(a + [m] + b) == multiset(a + b) + multiset{m}
  {
  }

  lemma OneLess(p: multiset<Manifest>, q: multiset<Manifest>, m: Manifest)
    requires p + multiset{m} == q + multiset{m}
    ensures p == q
  {
    assert p == p + multiset{m} - multiset{m} && q == q + multiset{m} - multiset{m};
  }

  /** Taking the last manifest of one list out of a permutation of it. */
  lemma TakeOut(front: seq<Manifest>, m: Manifest, ys: seq<Manifest>) returns (a: seq<Manifest>, b: seq<Manifest>)
    requires multiset(front + [m]) == multiset(ys)
    ensures ys == a + [m] + b && multiset(front) == multiset(a + b)
  {
    assert m in multiset(ys) by { assert m in front + [m]; }
    var i :| 0 <= i < |ys| && ys[i] == m;
    a, b := ys[..i], ys[i + 1..];
    assert ys == a + [m] + b;
    BagWithout(a, m, b);
    OneLess(multiset(front), multiset(a + b), m);
  }

  /** The total does not depend on the order of the manifests. */
  lemma {:induction false} TotalOfPermutation(xs: seq<Manifest>, ys: seq<Manifest>)
    requires multiset(xs) == multiset(ys)
    ensures Total(xs) == Total(ys)
  {
    if xs == [] {
      assert |multiset(ys)| == |ys|;
    } else {
      var n := |xs| - 1;
      assert xs == xs[..n] + [xs[n]];
      var a, b := TakeOut(xs[..n], xs[n], ys);
      TotalOfPermutation(xs[..n], a + b);
      TotalWithout(a, xs[n], b);
    }
  }

  lemma {:induction false} TotalAtLeast(ms: seq<Manifest>, m: Manifest)
    requires m in ms
    ensures m.size <= Total(ms)
  {
    var n := |ms| - 1;
    if m in ms[..n] {
      TotalAtLeast(ms[..n], m);
    } else {
      assert ms == ms[..n] + [ms[n]];
    }
  }
}
