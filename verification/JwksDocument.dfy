/** Reading an OIDC discovery document and its key set: which key is accepted for each key id. */
module JwksDocument {
  import opened Wrappers
  import opened Json
  import opened Strings

  const MAX_JWKS_KEYS := 100
  const MAX_KEY_ID := 128

  type Material = string

  type Keys = map<string, Material>

  // Constructing a key from its JWK form: none when the JWT library rejects it.
  type Construct = Json -> Option<Material>

  predicate ValidKeyId(j: Json) { j.Str? && j.s != "" && |j.s| <= MAX_KEY_ID }

  // Testing membership in a set raises for a list or a dict.
  predicate Unhashable(j: Json) { j.Arr? || j.Obj? }

  predicate IsCandidate(raw: Json) { raw.Obj? && ValidKeyId(Get(raw.fields, "kid")) }

  predicate AllowsVerify(raw: Json)
    requires raw.Obj?
  {
    var operations := Get(raw.fields, "key_ops");
    operations == Null || (operations.Arr? && Str("verify") in operations.items)
  }

  predicate HasKeyId(raw: Json, kid: string) { IsCandidate(raw) && Get(raw.fields, "kid") == Str(kid) }

  // A candidate that is looked at in full unless its key id is already taken.
  predicate IsEligible(raw: Json) {
    IsCandidate(raw) && Get(raw.fields, "alg") in {Null, Str("RS256")} && AllowsVerify(raw)
  }

  predicate IsRsa(raw: Json)
    requires raw.Obj?
  {
    Get(raw.fields, "kty") == Str("RSA")
  }

  predicate IsSignatureKey(raw: Json)
    requires raw.Obj?
  {
    IsRsa(raw) && Get(raw.fields, "use") in {Null, Str("sig")}
  }

  // The entry yields a key for this id.
  predicate Accepts(construct: Construct, raw: Json, kid: string) {
    HasKeyId(raw, kid) && IsEligible(raw) && construct(raw).Some? && IsSignatureKey(raw)
  }

  // The entry makes the whole document unusable whatever precedes it.
  predicate Malformed(raw: Json) { IsCandidate(raw) && Unhashable(Get(raw.fields, "alg")) }

  // The entry makes the document unusable when it is looked at in full.
  predicate Unconstructible(construct: Construct, raw: Json) {
    IsEligible(raw) && (construct(raw).None? || (IsRsa(raw) && Unhashable(Get(raw.fields, "use"))))
  }

  // An earlier entry already supplied the key for this id.
  predicate Taken(construct: Construct, raws: seq<Json>, kid: string, n: nat)
    requires n <= |raws|
  {
    exists j :: 0 <= j < n && Accepts(construct, raws[j], kid)
  }

  predicate FailsAt(construct: Construct, raws: seq<Json>, i: nat)
    requires i < |raws|
  {
    || Malformed(raws[i])
    || (Unconstructible(construct, raws[i]) && !Taken(construct, raws, Get(raws[i].fields, "kid").s, i))
  }

  // The material comes from the first entry that yields a key for this id.
  predicate IsFirst(construct: Construct, raws: seq<Json>, n: nat, kid: string, material: Material)
    requires n <= |raws|
  {
    exists i :: 0 <= i < n && FirstAt(construct, raws, i, kid) && construct(raws[i]) == Some(material)
  }

  predicate FirstAt(construct: Construct, raws: seq<Json>, i: nat, kid: string)
    requires i < |raws|
  {
    Accepts(construct, raws[i], kid) && !Taken(construct, raws, kid, i)
  }

  // The keys of exactly the ids that some entry yields a key for.
  ghost predicate FirstKeys(construct: Construct, raws: seq<Json>, n: nat, keys: Keys)
    requires n <= |raws|
  {
    && (forall kid :: kid in keys <==> Taken(construct, raws, kid, n))
    && forall kid :: kid in keys ==> IsFirst(construct, raws, n, kid, keys[kid])
  }

  datatype Verdict = Skipped | Broken | Accepted(kid: string, material: Material)

  method Inspect(construct: Construct, raw: Json, taken: Keys) returns (verdict: Verdict)
    ensures verdict.Broken? <==> BreaksAfter(construct, raw, taken)
    ensures verdict.Accepted? <==> IsEligible(raw) && Get(raw.fields, "kid").s !in taken && Accepts(construct, raw, Get(raw.fields, "kid").s)
    ensures verdict.Accepted? ==> verdict.kid == Get(raw.fields, "kid").s && Some(verdict.material) == construct(raw)
  {
    hide Get;
    if !raw.Obj? {
      return Skipped;
    }
    var kid := Get(raw.fields, "kid");
    if !ValidKeyId(kid) {
      return Skipped;
    }
    var alg := Get(raw.fields, "alg");
    if Unhashable(alg) {
      return Broken;
    }
    if alg !in {Null, Str("RS256")} || kid.s in taken {
      return Skipped;
    }
    if !AllowsVerify(raw) {
      return Skipped;
    }
    var key := construct(raw);
    if key.None? {
      return Broken;
    }
    if !IsRsa(raw) {
      return Skipped;
    }
    if Unhashable(Get(raw.fields, "use")) {
      return Broken;
    }
    if !IsSignatureKey(raw) {
      return Skipped;
    }
    return Accepted(kid.s, key.value);
  }

  /**
   * The key set is unusable exactly when some entry that is looked at breaks it; otherwise each id
   * gets the key of the first entry that yields one, later entries for it being skipped.
   */
  method ParseKeys(construct: Construct, raws: seq<Json>) returns (r: Option<Keys>)
    ensures r.None? <==> exists i :: 0 <= i < |raws| && FailsAt(construct, raws, i)
    ensures r.Some? ==> FirstKeys(construct, raws, |raws|, r.value)
  {
    hide Accepts, BreaksAfter, Taken, FirstKeys, FailsAt, IsEligible, Get;
    FirstKeysNone(construct, raws);
    var parsed: Keys := map[];
    for i := 0 to |raws|
      invariant forall j :: 0 <= j < i ==> !FailsAt(construct, raws, j)
      invariant FirstKeys(construct, raws, i, parsed)
    {
      Breaks(construct, raws, i, parsed);
      var verdict := Inspect(construct, raws[i], parsed);
      if verdict.Broken? {
        return None;
      }
      OneKeyId(construct, raws[i], parsed, verdict);
      if verdict.Accepted? {
        FirstKeysStep(construct, raws, i, parsed, verdict);
        parsed := parsed[verdict.kid := verdict.material];
      } else {
        SkippedStep(construct, raws, i, parsed);
      }
    }
    return Some(parsed);
  }

  lemma TakenStep(construct: Construct, raws: seq<Json>, i: nat)
    requires i < |raws|
    ensures forall kid :: Taken(construct, raws, kid, i + 1) <==> Taken(construct, raws, kid, i) || Accepts(construct, raws[i], kid)
  {
    hide Accepts;
  }

  lemma FirstKeysNone(construct: Construct, raws: seq<Json>)
    ensures FirstKeys(construct, raws, 0, map[])
  {
    hide Accepts;
  }

  predicate BreaksAfter(construct: Construct, raw: Json, taken: Keys) {
    Malformed(raw) || (Unconstructible(construct, raw) && Get(raw.fields, "kid").s !in taken)
  }

  lemma Breaks(construct: Construct, raws: seq<Json>, i: nat, keys: Keys)
    requires i < |raws| && FirstKeys(construct, raws, i, keys)
    ensures FailsAt(construct, raws, i) <==> BreaksAfter(construct, raws[i], keys)
  {
    hide Accepts, Taken, IsFirst;
  }

  // An entry yields a key for its own id only.
  lemma OneKeyId(construct: Construct, raw: Json, taken: Keys, verdict: Verdict)
    requires verdict.Accepted? <==> IsEligible(raw) && Get(raw.fields, "kid").s !in taken && Accepts(construct, raw, Get(raw.fields, "kid").s)
    requires verdict.Accepted? ==> verdict.kid == Get(raw.fields, "kid").s
    ensures verdict.Accepted? ==> forall kid :: Accepts(construct, raw, kid) <==> kid == verdict.kid
    ensures !verdict.Accepted? ==> forall kid :: Accepts(construct, raw, kid) ==> kid in taken
  {
    hide AllowsVerify, IsSignatureKey, Find;
  }

  lemma FirstGrows(construct: Construct, raws: seq<Json>, n: nat, kid: string, material: Material)
    requires n < |raws| && IsFirst(construct, raws, n, kid, material)
    ensures IsFirst(construct, raws, n + 1, kid, material)
  {
    hide FirstAt;
  }

  lemma FirstKeysStep(construct: Construct, raws: seq<Json>, i: nat, parsed: Keys, verdict: Verdict)
    requires i < |raws| && FirstKeys(construct, raws, i, parsed)
    requires verdict.Accepted? && verdict.kid !in parsed
    requires forall kid :: Accepts(construct, raws[i], kid) <==> kid == verdict.kid
    requires Some(verdict.material) == construct(raws[i])
    ensures FirstKeys(construct, raws, i + 1, parsed[verdict.kid := verdict.material])
  {
    hide Accepts, Taken, IsFirst;
    TakenStep(construct, raws, i);
    var keys := parsed[verdict.kid := verdict.material];
    assert FirstAt(construct, raws, i, verdict.kid);
    forall kid | kid in keys ensures IsFirst(construct, raws, i + 1, kid, keys[kid]) {
      if kid == verdict.kid {
        FirstHere(construct, raws, i, kid, verdict.material);
      } else {
        FirstGrows(construct, raws, i, kid, parsed[kid]);
      }
    }
  }

  lemma FirstHere(construct: Construct, raws: seq<Json>, i: nat, kid: string, material: Material)
    requires i < |raws| && FirstAt(construct, raws, i, kid) && construct(raws[i]) == Some(material)
    ensures IsFirst(construct, raws, i + 1, kid, material)
  {
    hide FirstAt;
  }

  lemma SkippedStep(construct: Construct, raws: seq<Json>, i: nat, parsed: Keys)
    requires i < |raws| && FirstKeys(construct, raws, i, parsed)
    requires forall kid :: Accepts(construct, raws[i], kid) ==> kid in parsed
    ensures FirstKeys(construct, raws, i + 1, parsed)
  {
    hide Accepts, Taken, IsFirst;
    TakenStep(construct, raws, i);
    forall kid | kid in parsed ensures IsFirst(construct, raws, i + 1, kid, parsed[kid]) {
      FirstGrows(construct, raws, i, kid, parsed[kid]);
    }
  }

  // ---------- one refresh ----------

  // Reaching the documents: fetching by URL, and the origin of a trusted HTTPS URL.
  datatype Web = Web(fetch: string -> Option<seq<Field>>, origin: string -> Option<string>)

  function DiscoveryUrl(issuer: string): string { StripSlashes(issuer) + "/.well-known/openid-configuration" }

  // The key set URL that the discovery document names, if it may be trusted.
  function KeySetUrl(web: Web, issuer: string): Option<string> {
    match web.fetch(DiscoveryUrl(issuer))
    case None => None
    case Some(metadata) =>
      var uri := Get(metadata, "jwks_uri");
      if Get(metadata, "issuer") != Str(issuer) || !uri.Str? then None
      else if web.origin(uri.s).None? || web.origin(uri.s) != web.origin(issuer) then None
      else Some(uri.s)
  }

  function RawKeys(web: Web, issuer: string): Option<seq<Json>> {
    match KeySetUrl(web, issuer)
    case None => None
    case Some(url) =>
      match web.fetch(url)
      case None => None
      case Some(document) =>
        var keys := Get(document, "keys");
        if keys.Arr? && 1 <= |keys.items| <= MAX_JWKS_KEYS then Some(keys.items) else None
  }

  // What a refresh yields: the first keys of the key set, or nothing when a document is not
  // acceptable, an entry breaks it, or no entry yields a key.
  ghost predicate RefreshYields(web: Web, construct: Construct, issuer: string, r: Option<Keys>) {
    match RawKeys(web, issuer)
    case None => r.None?
    case Some(raws) =>
      && (r.Some? <==> (forall i :: 0 <= i < |raws| ==> !FailsAt(construct, raws, i))
                       && exists i, kid :: 0 <= i < |raws| && Accepts(construct, raws[i], kid))
      && (r.Some? ==> FirstKeys(construct, raws, |raws|, r.value) && r.value != map[])
  }

  method FetchKeys(web: Web, construct: Construct, issuer: string) returns (r: Option<Keys>)
    ensures RefreshYields(web, construct, issuer, r)
  {
    hide FailsAt, Accepts, Get, FirstKeys, DiscoveryUrl;
    var metadata := web.fetch(DiscoveryUrl(issuer));
    if metadata.None? || Get(metadata.value, "issuer") != Str(issuer) {
      return None;
    }
    var uri := Get(metadata.value, "jwks_uri");
    if !uri.Str? || web.origin(uri.s).None? || web.origin(uri.s) != web.origin(issuer) {
      return None;
    }
    var document := web.fetch(uri.s);
    if document.None? {
      return None;
    }
    var keys := Get(document.value, "keys");
    if !keys.Arr? || keys.items == [] || |keys.items| > MAX_JWKS_KEYS {
      return None;
    }
    var parsed := ParseKeys(construct, keys.items);
    if parsed.None? {
      return None;
    }
    SomeKeyTaken(construct, keys.items, parsed.value);
    if parsed.value == map[] {
      return None;
    }
    return parsed;
  }

  lemma SomeKeyTaken(construct: Construct, raws: seq<Json>, keys: Keys)
    requires FirstKeys(construct, raws, |raws|, keys)
    ensures keys != map[] <==> exists i, kid :: 0 <= i < |raws| && Accepts(construct, raws[i], kid)
  {
    hide Accepts;
    if keys != map[] {
      var kid :| kid in keys;
      assert Taken(construct, raws, kid, |raws|);
    }
    if i, kid :| 0 <= i < |raws| && Accepts(construct, raws[i], kid) {
      assert Taken(construct, raws, kid, |raws|);
    }
  }

  // ---------- which keys are trusted ----------

  // An RSA signature key with this id that may be used to verify RS256.
  predicate IsSigningKey(raw: Json, kid: string) {
    && raw.Obj? && Get(raw.fields, "kid") == Str(kid) && 1 <= |kid| <= 128
    && (Get(raw.fields, "alg") == Null || Get(raw.fields, "alg") == Str("RS256"))
    && (Get(raw.fields, "key_ops") == Null
        || (Get(raw.fields, "key_ops").Arr? && Str("verify") in Get(raw.fields, "key_ops").items))
    && Get(raw.fields, "kty") == Str("RSA") && (Get(raw.fields, "use") == Null || Get(raw.fields, "use") == Str("sig"))
  }

  // The key set that the issuer's discovery document names, at a URL of the issuer's own origin.
  predicate IsKeySetOf(web: Web, issuer: string, url: string, raws: seq<Json>) {
    var metadata := web.fetch(StripSlashes(issuer) + "/.well-known/openid-configuration");
    && metadata.Some? && Get(metadata.value, "issuer") == Str(issuer) && Get(metadata.value, "jwks_uri") == Str(url)
    && web.origin(url).Some? && web.origin(url) == web.origin(issuer)
    && web.fetch(url).Some? && Get(web.fetch(url).value, "keys") == Arr(raws) && 1 <= |raws| <= 100
  }

  lemma AcceptsSigningKeys(construct: Construct, raw: Json, kid: string)
    ensures Accepts(construct, raw, kid) <==> IsSigningKey(raw, kid) && construct(raw).Some?
  {
    hide Get;
  }

  lemma KeySetIs(web: Web, issuer: string, raws: seq<Json>)
    ensures RawKeys(web, issuer) == Some(raws) <==> exists url :: IsKeySetOf(web, issuer, url, raws)
  {
    hide Get, StripSlashes;
    if RawKeys(web, issuer) == Some(raws) {
      assert IsKeySetOf(web, issuer, KeySetUrl(web, issuer).value, raws);
    }
  }

  // The first signing key for this id, and what the library makes of it.
  predicate IsFirstKey(construct: Construct, raws: seq<Json>, i: nat, kid: string, material: Material) {
    && i < |raws| && IsSigningKey(raws[i], kid) && construct(raws[i]) == Some(material)
    && forall j :: 0 <= j < i ==> !(IsSigningKey(raws[j], kid) && construct(raws[j]).Some?)
  }

  /**
   * The keys that a refresh yields are, id by id, the first RS256 signing keys of the key set that the issuer's
   * own discovery document names at the issuer's own origin, and no others.
   */
  lemma YieldedKeysAreTrusted(web: Web, construct: Construct, issuer: string, keys: Keys, kid: string, material: Material)
    requires RefreshYields(web, construct, issuer, Some(keys))
    ensures kid in keys && keys[kid] == material
            <==> exists url, raws, i :: IsKeySetOf(web, issuer, url, raws) && IsFirstKey(construct, raws, i, kid, material)
  {
    var raws := RawKeys(web, issuer).value;
    KeySetIs(web, issuer, raws);
    KeysAreFirst(construct, raws, keys, kid, material);
    hide IsKeySetOf, IsFirstKey, RawKeys, FirstKeys;
    if url, raws', i: nat :| IsKeySetOf(web, issuer, url, raws') && IsFirstKey(construct, raws', i, kid, material) {
      KeySetIs(web, issuer, raws');
      assert raws' == raws;
    }
  }

  lemma FirstMeans(construct: Construct, raws: seq<Json>, i: nat, kid: string, material: Material)
    requires i < |raws|
    ensures IsFirstKey(construct, raws, i, kid, material) <==> FirstAt(construct, raws, i, kid) && construct(raws[i]) == Some(material)
  {
    forall raw ensures Accepts(construct, raw, kid) <==> IsSigningKey(raw, kid) && construct(raw).Some? {
      AcceptsSigningKeys(construct, raw, kid);
    }
    hide Accepts, IsSigningKey;
  }

  lemma KeysAreFirst(construct: Construct, raws: seq<Json>, keys: Keys, kid: string, material: Material)
    requires FirstKeys(construct, raws, |raws|, keys)
    ensures kid in keys && keys[kid] == material <==> exists i :: IsFirstKey(construct, raws, i, kid, material)
  {
    hide IsFirstKey, FirstAt;
    if kid in keys && keys[kid] == material {
      var i :| 0 <= i < |raws| && FirstAt(construct, raws, i, kid) && construct(raws[i]) == Some(material);
      FirstMeans(construct, raws, i, kid, material);
    }
    hide FirstKeys;
    if i: nat :| IsFirstKey(construct, raws, i, kid, material) {
      FirstKeyIndex(construct, raws, i, kid, material);
      FirstMeans(construct, raws, i, kid, material);
      FirstIsOne(construct, raws, keys, i, kid, material);
    }
  }

  lemma FirstKeyIndex(construct: Construct, raws: seq<Json>, i: nat, kid: string, material: Material)
    requires IsFirstKey(construct, raws, i, kid, material)
    ensures i < |raws|
  {
  }

  lemma FirstIsOne(construct: Construct, raws: seq<Json>, keys: Keys, i: nat, kid: string, material: Material)
    requires FirstKeys(construct, raws, |raws|, keys) && i < |raws| && FirstAt(construct, raws, i, kid) && construct(raws[i]) == Some(material)
    ensures kid in keys && keys[kid] == material
  {
    hide Accepts;
    assert Taken(construct, raws, kid, |raws|);
    var k :| 0 <= k < |raws| && FirstAt(construct, raws, k, kid) && construct(raws[k]) == Some(keys[kid]);
    assert k == i;
  }
}
