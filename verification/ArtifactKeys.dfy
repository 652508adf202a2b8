/** Storage keys: run-owned content addresses and the staging namespace. */
module ArtifactKeys {
  import opened Wrappers
  import opened ObjectStore
  import opened Strings

  const STAGING_PREFIX := "staging/v1/sha256/"
  const STAGED_REFERENCE_PREFIX := "staged-artifact://sha256/"
  const RUN_RESULT := "run-result"

  function Scope(run: Option<string>): string { if run.Some? then run.value else "project" }

  // The content address of an artifact; an invalid digest has none.
  function ArtifactKey(organization: string, project: string, run: Option<string>, kind: string, sha256: string): Option<string> {
    if !IsHex(sha256, 64) then None
    else
      Some("artifacts/v1/" + organization + "/" + project + "/" + (Scope(run) + "/" + kind) + ("/" + sha256[..2] + "/" + sha256))
  }

  function StagedKey(sha256: string): Option<string> {
    if !IsHex(sha256, 64) then None else Some(STAGING_PREFIX + (sha256[..2] + "/" + sha256))
  }

  function StagedReference(sha256: string): Option<string> {
    if !IsHex(sha256, 64) then None else Some(STAGED_REFERENCE_PREFIX + sha256)
  }

  // The digest named by a reference: str.removeprefix.
  function ReferencedDigest(reference: string): string {
    if STAGED_REFERENCE_PREFIX <= reference then reference[|STAGED_REFERENCE_PREFIX|..] else reference
  }

  /** The parent reads back exactly the digest that the child named. */
  lemma ReferenceRoundTrip(sha256: string)
    requires IsHex(sha256, 64)
    ensures StagedReference(sha256).Some? && ReferencedDigest(StagedReference(sha256).value) == sha256
    ensures StagedReference(sha256).value == "staged-artifact://sha256/" + sha256
  {
  }

  predicate NoSlash(s: string) { forall i :: 0 <= i < |s| ==> s[i] != '/' }

  // The part before the first slash determines the split.
  lemma SplitAtSlash(a: string, b: string, c: string, d: string)
    requires NoSlash(a) && NoSlash(c)
    requires a + "/" + b == c + "/" + d
    ensures a == c && b == d
  {
    var s := a + "/" + b;
    assert s[|a|] == '/' && s[|c|] == '/';
    assert forall i :: 0 <= i < |a| ==> s[i] == a[i];
    assert forall i :: 0 <= i < |c| ==> s[i] == c[i];
    assert s[..|a|] == a && s[..|c|] == c;
    assert s[|a| + 1..] == b && s[|c| + 1..] == d;
  }

  // s.split("/")
  function Segments(s: string): (r: seq<string>)
    ensures r != []
  {
    if s == "" then [""]
    else
      var rest := Segments(s[1..]);
      if s[0] == '/' then [""] + rest else [[s[0]] + rest[0]] + rest[1..]
  }

  lemma {:induction false} SegmentsOf(a: string, b: string)
    requires NoSlash(a)
    ensures Segments(a) == [a] && Segments(a + ("/" + b)) == [a] + Segments(b)
    decreases |a|
  {
    if a == "" {
      assert a + ("/" + b) == "/" + b && ("/" + b)[1..] == b;
    } else {
      SegmentsOf(a[1..], b);
      var whole := a + ("/" + b);
      assert whole[1..] == a[1..] + ("/" + b) && whole[0] == a[0] != '/';
      var rest := Segments(whole[1..]);
      assert rest[0] == a[1..] && rest[1..] == Segments(b);
      assert [a[0]] + a[1..] == a;
    }
  }

  lemma {:induction false} SegmentsOfPath(parts: seq<string>)
    requires parts != [] && forall i :: 0 <= i < |parts| ==> NoSlash(parts[i])
    ensures Segments(Path(parts)) == parts
  {
    if |parts| == 1 {
      SegmentsOf(parts[0], "");
    } else {
      SegmentsOfPath(parts[1..]);
      SegmentsOf(parts[0], Path(parts[1..]));
    }
  }

  function Path(parts: seq<string>): string
    requires parts != []
  {
    if |parts| == 1 then parts[0] else parts[0] + ("/" + Path(parts[1..]))
  }

  /** The address of an artifact, split at its slashes. */
  lemma ArtifactKeySegments(organization: string, project: string, run: Option<string>, kind: string, sha256: string)
    requires IsHex(sha256, 64) && NoSlash(organization) && NoSlash(project) && NoSlash(kind) && (run.Some? ==> NoSlash(run.value))
    ensures ArtifactKey(organization, project, run, kind, sha256).Some?
    ensures Segments(ArtifactKey(organization, project, run, kind, sha256).value)
            == ["artifacts", "v1", organization, project, if run.Some? then run.value else "project", kind, sha256[..2], sha256]
  {
    var scope := Scope(run);
    var parts := ["artifacts", "v1", organization, project, scope, kind, sha256[..2], sha256];
    SegmentsOfPath(parts);
    hide Segments, Path, Scope, IsHex;
    ArtifactPath(organization, project, scope, kind, sha256);
  }

  lemma ArtifactPath(organization: string, project: string, scope: string, kind: string, sha256: string)
    requires |sha256| == 64
    ensures Path(["artifacts", "v1", organization, project, scope, kind, sha256[..2], sha256])
            == "artifacts/v1/" + organization + "/" + project + "/" + (scope + "/" + kind) + ("/" + sha256[..2] + "/" + sha256)
  {
    PathOfFour(scope, kind, sha256[..2], sha256);
    var rest := scope + ("/" + (kind + ("/" + (sha256[..2] + ("/" + sha256)))));
    PathCons(project, [scope, kind, sha256[..2], sha256]);
    PathCons(organization, [project, scope, kind, sha256[..2], sha256]);
    PathCons("v1", [organization, project, scope, kind, sha256[..2], sha256]);
    PathCons("artifacts", ["v1", organization, project, scope, kind, sha256[..2], sha256]);
    hide Path;
    assert "artifacts" + ("/" + ("v1" + ("/" + (organization + ("/" + (project + ("/" + rest)))))))
           == "artifacts/v1/" + organization + "/" + project + "/" + rest;
    assert rest == (scope + "/" + kind) + ("/" + sha256[..2] + "/" + sha256);
  }

  lemma PathCons(part: string, parts: seq<string>)
    requires parts != []
    ensures Path([part] + parts) == part + ("/" + Path(parts))
  {
    assert ([part] + parts)[1..] == parts;
  }

  lemma PathOfFour(a: string, b: string, c: string, d: string)
    ensures Path([a, b, c, d]) == a + ("/" + (b + ("/" + (c + ("/" + d)))))
  {
    PathCons(c, [d]);
    PathCons(b, [c, d]);
    PathCons(a, [b, c, d]);
    assert Path([d]) == d;
  }

  /** The address of a staged object, split at its slashes. */
  lemma StagedKeySegments(sha256: string)
    requires IsHex(sha256, 64)
    ensures StagedKey(sha256).Some? && Segments(StagedKey(sha256).value) == ["staging", "v1", "sha256", sha256[..2], sha256]
  {
    SegmentsOfPath(["staging", "v1", "sha256", sha256[..2], sha256]);
    hide Segments, Path, IsHex;
    PathOfFour("v1", "sha256", sha256[..2], sha256);
    PathCons("staging", ["v1", "sha256", sha256[..2], sha256]);
    assert "staging" + ("/" + ("v1" + ("/" + ("sha256" + ("/" + (sha256[..2] + ("/" + sha256)))))))
           == "staging/v1/sha256/" + (sha256[..2] + "/" + sha256);
  }

  // Two concatenations of parts with equal leading or trailing lengths.
  lemma SplitPrefix(a: string, b: string, c: string, d: string)
    requires |a| == |c| && a + b == c + d
    ensures a == c && b == d
  {
    assert (a + b)[..|a|] == a && (c + d)[..|a|] == c;
    assert (a + b)[|a|..] == b && (c + d)[|a|..] == d;
  }

  lemma SplitSuffix(a: string, b: string, c: string, d: string)
    requires |b| == |d| && a + b == c + d
    ensures a == c && b == d
  {
    assert |a| == |c|;
    SplitPrefix(a, b, c, d);
  }

  /** A content address determines its organization, project, run, kind and digest. */
  lemma ArtifactKeyInjective(o1: string, p1: string, r1: Option<string>, k1: string, s1: string,
                             o2: string, p2: string, r2: Option<string>, k2: string, s2: string)
    requires IsHex(o1, 32) && IsHex(o2, 32) && IsHex(p1, 32) && IsHex(p2, 32)
    requires r1.Some? ==> IsHex(r1.value, 32)
    requires r2.Some? ==> IsHex(r2.value, 32)
    requires ArtifactKey(o1, p1, r1, k1, s1).Some? && ArtifactKey(o1, p1, r1, k1, s1) == ArtifactKey(o2, p2, r2, k2, s2)
    ensures o1 == o2 && p1 == p2 && r1 == r2 && k1 == k2 && s1 == s2
  {
    var head := "artifacts/v1/";
    var m1, m2 := Scope(r1) + "/" + k1, Scope(r2) + "/" + k2;
    var t1, t2 := "/" + s1[..2] + "/" + s1, "/" + s2[..2] + "/" + s2;
    ScopeHasNoSlash(r1);
    ScopeHasNoSlash(r2);
    hide HexChar, NoSlash;
    SplitSuffix(head + o1 + "/" + p1 + "/" + m1, t1, head + o2 + "/" + p2 + "/" + m2, t2);
    SplitSuffix("/" + s1[..2] + "/", s1, "/" + s2[..2] + "/", s2);
    SplitPrefix(head + o1 + "/" + p1 + "/", m1, head + o2 + "/" + p2 + "/", m2);
    SplitSuffix(head + o1 + "/" + p1, "/", head + o2 + "/" + p2, "/");
    SplitSuffix(head + o1 + "/", p1, head + o2 + "/", p2);
    SplitSuffix(head + o1, "/", head + o2, "/");
    SplitPrefix(head, o1, head, o2);
    SplitAtSlash(Scope(r1), k1, Scope(r2), k2);
  }

  lemma ScopeHasNoSlash(run: Option<string>)
    requires run.Some? ==> IsHex(run.value, 32)
    ensures NoSlash(Scope(run)) && (run.Some? <==> |Scope(run)| == 32)
  {
  }

  /** Run-owned addresses never fall into the staging namespace. */
  lemma NamespacesDisjoint(organization: string, project: string, run: Option<string>, kind: string, sha256: string)
    requires IsHex(sha256, 64)
    ensures !(STAGING_PREFIX <= ArtifactKey(organization, project, run, kind, sha256).value)
  {
    var key := ArtifactKey(organization, project, run, kind, sha256).value;
    assert key[0] == 'a' && STAGING_PREFIX[0] == 's';
  }

  // Only key characters and no empty segment inside.
  predicate Clean(s: string) {
    (forall i :: 0 <= i < |s| ==> KeyChar(s[i])) && forall i :: 0 <= i < |s| - 1 ==> !(s[i] == '/' && s[i + 1] == '/')
  }

  lemma CleanJoin(a: string, b: string)
    requires Clean(a) && Clean(b) && a != "" && b != "" && !(a[|a| - 1] == '/' && b[0] == '/')
    ensures Clean(a + b)
  {
    hide KeyChar;
  }

  lemma SlashIsClean()
    ensures Clean("/")
  {
  }

  // A clean address followed by a segment.
  lemma CleanSegment(a: string, segment: string)
    requires Clean(a) && a != "" && a[|a| - 1] != '/' && Clean(segment) && segment != "" && segment[0] != '/'
    ensures Clean(a + "/" + segment)
  {
    SlashIsClean();
    hide KeyChar;
    CleanJoin(a, "/");
    CleanJoin(a + "/", segment);
  }

  lemma HexIsClean(s: string, n: nat)
    requires IsHex(s, n) && n > 0
    ensures Clean(s) && s[0] != '/' && s[n - 1] != '/'
  {
  }

  /** Every run-owned address and every staging address is a key the stores accept. */
  lemma KeysAreValid(organization: string, project: string, run: string, sha256: string)
    requires IsHex(organization, 32) && IsHex(project, 32) && IsHex(run, 32) && IsHex(sha256, 64)
    ensures ValidKey(ArtifactKey(organization, project, Some(run), RUN_RESULT, sha256).value)
    ensures ValidKey(StagedKey(sha256).value)
  {
    assert IsHex(sha256[..2], 2);
    HexIsClean(organization, 32);
    HexIsClean(project, 32);
    HexIsClean(run, 32);
    HexIsClean(sha256[..2], 2);
    HexIsClean(sha256, 64);
    assert Clean("artifacts/v1") && Clean("staging/v1/sha256") && Clean(RUN_RESULT);
    RunKeyClean(organization, project, run, sha256);
    StagedKeyClean(sha256);
  }

  lemma RunKeyClean(organization: string, project: string, run: string, sha256: string)
    requires |organization| == |project| == |run| == 32 && |sha256| == 64
    requires Clean("artifacts/v1") && Clean(RUN_RESULT) && Clean(sha256) && Clean(sha256[..2]) && sha256[0] != '/' && sha256[1] != '/' && sha256[63] != '/'
    requires Clean(organization) && organization[0] != '/' && organization[31] != '/'
    requires Clean(project) && project[0] != '/' && project[31] != '/'
    requires Clean(run) && run[0] != '/' && run[31] != '/'
    requires IsHex(sha256, 64)
    ensures ValidKey(ArtifactKey(organization, project, Some(run), RUN_RESULT, sha256).value)
  {
    hide KeyChar, IsHex;
    var a := "artifacts/v1" + "/" + organization;
    CleanSegment("artifacts/v1", organization);
    CleanSegment(a, project);
    CleanSegment(a + "/" + project, run);
    CleanSegment(a + "/" + project + "/" + run, RUN_RESULT);
    var b := a + "/" + project + "/" + run + "/" + RUN_RESULT;
    CleanSegment(b, sha256[..2]);
    CleanSegment(b + "/" + sha256[..2], sha256);
    assert ArtifactKey(organization, project, Some(run), RUN_RESULT, sha256).value == b + "/" + sha256[..2] + "/" + sha256;
  }

  lemma StagedKeyClean(sha256: string)
    requires |sha256| == 64 && IsHex(sha256, 64)
    requires Clean("staging/v1/sha256") && Clean(sha256) && Clean(sha256[..2]) && sha256[0] != '/' && sha256[1] != '/'
    ensures ValidKey(StagedKey(sha256).value)
  {
    hide KeyChar, IsHex;
    CleanSegment("staging/v1/sha256", sha256[..2]);
    CleanSegment("staging/v1/sha256" + "/" + sha256[..2], sha256);
    assert StagedKey(sha256).value == "staging/v1/sha256" + "/" + sha256[..2] + "/" + sha256;
  }
}
