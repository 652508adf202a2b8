/** Creating and verifying PostgreSQL backups as programs over one backup root, under a deadline. */
module PostgresContinuity {
  import opened Wrappers
  import opened Decimal
  import opened Strings
  import opened BackupManifest
  import opened BackupBundle
  import opened BackupProtocol

  datatype Code = InvalidPath | InvalidConfiguration | ProcessTimeout | ProcessFailed | BackupIntegrity | ToolVersion

  const CHUNK := 1024 * 1024
  const MAX_LIMIT := 100 * 1024 * 1024 * 1024 * 1024

  // A running deadline: the k-th reading of the monotonic clock, and the moment not to be passed.
  class Deadline {
    const at: nat -> real
    const expiresAt: real
    var readings: nat

    constructor (at: nat -> real, expiresAt: real)
      ensures this.at == at && this.expiresAt == expiresAt && readings == 0
    {
      this.at, this.expiresAt, readings := at, expiresAt, 0;
    }

    method InTime() returns (ok: bool)
      modifies this
      ensures ok <==> at(old(readings)) < expiresAt
      ensures readings == old(readings) + 1
    {
      ok := at(readings) < expiresAt;
      readings := readings + 1;
    }
  }

  ghost predicate IsPunctual(d: Deadline) { forall k: nat :: d.at(k) < d.expiresAt }

  class BackupRoot {
    var bundles: map<string, Folder>
    var partials: map<string, Folder>

    function Contents(): Root
      reads this
    {
      Root(bundles, partials)
    }

    constructor ()
      ensures Contents() == Root(map[], map[])
    {
      bundles, partials := map[], map[];
    }

    // _new_partial_directory
    method MakePartial(nonce: string) returns (r: Option<Code>)
      modifies this`partials
      ensures r == if !IsHex(nonce, 24) then Some(InvalidConfiguration) else if nonce in old(partials) then Some(InvalidPath) else None
      ensures partials == if r.None? then old(partials)[nonce := map[]] else old(partials)
    {
      hide IsHex;
      if !IsHex(nonce, 24) {
        return Some(InvalidConfiguration);
      }
      if nonce in partials {
        return Some(InvalidPath);
      }
      partials := partials[nonce := map[]];
      return None;
    }

    method WriteMember(nonce: string, name: string, content: string)
      requires nonce in partials
      modifies this`partials
      ensures partials == old(partials)[nonce := old(partials)[nonce][name := content]]
    {
      partials := partials[nonce := partials[nonce][name := content]];
    }

    method UnlinkMember(nonce: string, name: string)
      requires nonce in partials
      modifies this`partials
      ensures partials == old(partials)[nonce := old(partials)[nonce] - {name}]
    {
      partials := partials[nonce := partials[nonce] - {name}];
    }

    method RemovePartial(nonce: string)
      modifies this`partials
      ensures partials == old(partials) - {nonce}
    {
      partials := partials - {nonce};
    }

    // The check for an existing bundle and the rename.
    method PublishPartial(nonce: string, id: string) returns (ok: bool)
      requires nonce in partials
      modifies this
      ensures ok <==> id !in old(bundles)
      ensures !ok ==> Contents() == old(Contents())
      ensures ok ==> bundles == old(bundles)[id := old(partials)[nonce]] && partials == old(partials) - {nonce}
    {
      if id in bundles {
        return false;
      }
      bundles := bundles[id := partials[nonce]];
      partials := partials - {nonce};
      return true;
    }
  }

  /** Hashing block by block, each block in time, gives the digest and the size of a file within the limit. */
  method HashRegularFile(w: World, content: string, maxBytes: nat, deadline: Deadline) returns (r: Result<(string, nat), Code>)
    modifies deadline
    ensures r.Success? ==> 0 < |content| <= maxBytes && r.value == (w.hash(content), |content|)
    ensures r.Failure? ==> r.error == if 0 < |content| <= maxBytes then ProcessTimeout else BackupIntegrity
    ensures IsPunctual(deadline) ==> (r.Success? <==> 0 < |content| <= maxBytes)
  {
    if content == "" || |content| > maxBytes {
      return Failure(BackupIntegrity);
    }
    var digested, total := "", 0;
    while total < |content|
      invariant total <= |content| && digested == content[..total]
    {
      var end := if total + CHUNK < |content| then total + CHUNK else |content|;
      var ok := deadline.InTime();
      if !ok {
        return Failure(ProcessTimeout);
      }
      digested := digested + content[total..end];
      total := end;
    }
    assert digested == content;
    return Success((w.hash(digested), total));
  }

  method CountLines(lines: seq<string>) returns (count: nat)
    ensures count == CountEntries(lines)
    ensures count == |EntryLines(lines)|
  {
    CountIsEntries(lines);
    hide EntryLines;
    count := 0;
    for i := 0 to |lines|
      invariant count == CountEntries(lines[..i])
    {
      assert lines[..i + 1][..i] == lines[..i];
      if IsEntry(lines[i]) {
        count := count + 1;
      }
    }
    assert lines[..|lines|] == lines;
  }

  /** Listing the archive into the working directory gives its entry count and leaves no listing behind. */
  method InspectArchive(w: World, root: BackupRoot, nonce: string, archive: string, deadline: Deadline) returns (r: Result<nat, Code>)
    requires nonce in root.partials && LISTING !in root.partials[nonce]
    modifies root`partials, deadline
    ensures r.Success? ==> Some(r.value) == TocEntries(w, archive) && root.partials == old(root.partials)
    ensures root.partials.Keys == old(root.partials.Keys) && root.partials == old(root.partials)[nonce := root.partials[nonce]]
    ensures IsPunctual(deadline) ==> (r.Success? <==> TocEntries(w, archive).Some?)
  {
    hide CountEntries;
    var ok := deadline.InTime();
    if !ok {
      return Failure(ProcessTimeout);
    }
    var listed := w.list(archive);
    if listed.None? {
      assert root.partials == old(root.partials)[nonce := root.partials[nonce]];
      return Failure(ProcessFailed);
    }
    root.WriteMember(nonce, LISTING, listed.value);
    if |listed.value| > MAX_TOC_BYTES {
      return Failure(BackupIntegrity);
    }
    root.UnlinkMember(nonce, LISTING);
    assert root.partials[nonce] == old(root.partials)[nonce];
    assert root.partials == old(root.partials);
    var count := CountLines(w.splitlines(listed.value));
    if count == 0 || count > MAX_TOC_ENTRIES {
      return Failure(BackupIntegrity);
    }
    return Success(count);
  }

  // ---------- creating ----------

  // The root is where these steps of the protocol lead, with one backup being made.
  ghost predicate Follows(w: World, maxBytes: nat, start: Root, steps: seq<Step>, root: Root, c: Creator) {
    Run(w, maxBytes, State(start, []), steps) == State(root, [c])
  }

  lemma {:induction false} RunOneMore(w: World, maxBytes: nat, s: State, steps: seq<Step>, step: Step)
    ensures Run(w, maxBytes, s, steps + [step]) == Next(w, maxBytes, Run(w, maxBytes, s, steps), step)
    decreases |steps|
  {
    hide Next;
    if steps == [] {
      assert ([] + [step])[1..] == [];
      assert Run(w, maxBytes, Next(w, maxBytes, s, step), []) == Next(w, maxBytes, s, step);
    } else {
      RunOneMore(w, maxBytes, Next(w, maxBytes, s, steps[0]), steps[1..], step);
      assert (steps + [step])[1..] == steps[1..] + [step];
    }
  }

  lemma Started(w: World, maxBytes: nat, start: Root, nonce: string, dump: string, restore: string)
    requires ToolsAgree(dump, restore)
    ensures Follows(w, maxBytes, start, [Begin(nonce, dump, restore)], start, Creator(nonce, dump, restore, Begun))
  {
    RunOneMore(w, maxBytes, State(start, []), [], Begin(nonce, dump, restore));
    assert [] + [Begin(nonce, dump, restore)] == [Begin(nonce, dump, restore)];
  }

  lemma Followed(w: World, maxBytes: nat, start: Root, steps: seq<Step>, root: Root, c: Creator, step: Step, root': Root, phase: Phase)
    requires Follows(w, maxBytes, start, steps, root, c)
    requires Next(w, maxBytes, State(root, [c]), step) == State(root', [c.(phase := phase)])
    ensures Follows(w, maxBytes, start, steps + [step], root', c.(phase := phase))
  {
    hide Next;
    RunOneMore(w, maxBytes, State(start, []), steps, step);
  }

  const SUPPORTED_MAJORS := {16, 17, 18}

  predicate IsToolchain(dump: string, restore: string, psql: string) {
    && IsVersion(dump) && IsVersion(restore) && IsVersion(psql)
    && Major(dump) == Major(restore) == Major(psql) && Major(dump) in SUPPORTED_MAJORS
  }

  // A supported major has two digits, so it is written in one way.
  lemma ToolchainAgrees(dump: string, restore: string, psql: string)
    requires IsToolchain(dump, restore, psql)
    ensures ToolsAgree(dump, restore)
  {
    TwoDigits(MajorText(dump));
    TwoDigits(MajorText(restore));
  }

  /** A toolchain is three versions that all start with 16., with 17. or with 18. */
  lemma SupportedToolchains(dump: string, restore: string, psql: string)
    ensures IsToolchain(dump, restore, psql) <==>
              && IsVersion(dump) && IsVersion(restore) && IsVersion(psql)
              && (("16." <= dump && "16." <= restore && "16." <= psql)
                  || ("17." <= dump && "17." <= restore && "17." <= psql)
                  || ("18." <= dump && "18." <= restore && "18." <= psql))
  {
    if IsVersion(dump) && IsVersion(restore) && IsVersion(psql) {
      SupportedMajor(dump);
      SupportedMajor(restore);
      SupportedMajor(psql);
    }
    hide IsVersion, Major;
  }

  lemma SupportedMajor(version: string)
    requires IsVersion(version)
    ensures (Major(version) == 16 <==> "16." <= version) && (Major(version) == 17 <==> "17." <= version)
            && (Major(version) == 18 <==> "18." <= version)
  {
    var k := DigitRun(version);
    var text := version[..k];
    assert version[k] == '.';
    NumberValue(text);
    if k == 2 {
      assert text[0] == version[0] && text[1] == version[1];
    }
  }

  lemma NumberValue(text: string)
    requires AllDigits(text) && 1 <= |text| <= 2
    ensures ParseNat(text) == if |text| == 1 then DigitValue(text[0]) else 10 * DigitValue(text[0]) + DigitValue(text[1])
  {
    assert ParseNat(text[..0]) == 0;
    if |text| == 2 {
      assert ParseNat(text[..1]) == ParseNat(text[..1][..0]) * 10 + DigitValue(text[0]);
    }
  }

  lemma TwoDigits(s: string)
    requires AllDigits(s) && 1 <= |s| <= 2 && ParseNat(s) >= 10
    ensures ParseNat(s) < 100 && s == [DigitChar(ParseNat(s) / 10), DigitChar(ParseNat(s) % 10)]
  {
    assert s[..1] == [s[0]] && s[..1][..0] == [];
    assert ParseNat(s[..1]) == DigitValue(s[0]);
    if |s| == 2 {
      assert s == [s[0], s[1]] && ParseNat(s) == DigitValue(s[0]) * 10 + DigitValue(s[1]);
    }
    hide ParseNat, AllDigits;
  }

  class Continuity {
    const w: World
    const root: BackupRoot
    const dump: string
    const restore: string
    const psql: string

    // The version each tool reports, empty for an answer without one.
    constructor (w: World, root: BackupRoot, dump: string, restore: string, psql: string)
      ensures this.w == w && this.root == root && this.dump == dump && this.restore == restore && this.psql == psql
    {
      this.w, this.root, this.dump, this.restore, this.psql := w, root, dump, restore, psql;
    }

    /** Given time, a toolchain is accepted exactly when its three versions are well-formed and of one supported major. */
    method ValidateToolchain(deadline: Deadline) returns (r: Option<Code>)
      modifies deadline
      ensures r.None? ==> IsToolchain(dump, restore, psql)
      ensures IsPunctual(deadline) ==> (r.None? <==> IsToolchain(dump, restore, psql))
    {
      hide IsVersion;
      var versions := [dump, restore, psql];
      for i := 0 to 3
        invariant forall k :: 0 <= k < i ==> IsVersion(versions[k])
      {
        var ok := deadline.InTime();
        if !ok {
          return Some(ProcessTimeout);
        }
        if !IsVersion(versions[i]) {
          assert !IsToolchain(dump, restore, psql);
          return Some(ToolVersion);
        }
      }
      assert IsVersion(versions[0]) && IsVersion(versions[1]) && IsVersion(versions[2]);
      if Major(dump) != Major(restore) || Major(dump) != Major(psql) || Major(dump) !in SUPPORTED_MAJORS {
        return Some(ToolVersion);
      }
      return None;
    }

    // Everything about the archive that the manifest will say.
    method DumpAndInspect(nonce: string, archive: Option<string>, maxBytes: nat, deadline: Deadline) returns (r: Result<(string, nat, nat), Code>)
      requires nonce in root.partials && root.partials[nonce] == map[]
      modifies root`partials, deadline
      ensures root.partials == old(root.partials)[nonce := Work(root.Contents(), nonce)] && nonce in root.partials
      ensures r.Success? ==>
                && archive.Some? && root.partials[nonce] == map[ARCHIVE := archive.value] && 0 < |archive.value| <= maxBytes
                && r.value.0 == w.hash(archive.value) && r.value.1 == |archive.value| && Some(r.value.2) == TocEntries(w, archive.value)
      ensures IsPunctual(deadline) ==>
                (r.Success? <==> archive.Some? && 0 < |archive.value| <= maxBytes && TocEntries(w, archive.value).Some?)
    {
      hide TocEntries;
      assert root.partials == old(root.partials)[nonce := root.partials[nonce]];
      var ok := deadline.InTime();
      if !ok {
        return Failure(ProcessTimeout);
      }
      if archive.None? {
        return Failure(ProcessFailed);
      }
      root.WriteMember(nonce, ARCHIVE, archive.value);
      var hashed := HashRegularFile(w, archive.value, maxBytes, deadline);
      if hashed.Failure? {
        return Failure(hashed.error);
      }
      var entries := InspectArchive(w, root, nonce, archive.value, deadline);
      if entries.Failure? {
        return Failure(entries.error);
      }
      return Success((hashed.value.0, hashed.value.1, entries.value));
    }

    // Writing the manifest and its digest line, then making the bundle visible or giving up.
    method SealAndPublish(nonce: string, manifest: Manifest, ghost archive: string) returns (published: bool)
      requires nonce in root.partials && root.partials[nonce] == map[ARCHIVE := archive]
      modifies root
      ensures root.partials == old(root.partials) - {nonce}
      ensures published <==> manifest.bundleId !in old(root.bundles)
      ensures !published ==> root.bundles == old(root.bundles)
      ensures published ==> root.bundles == old(root.bundles)[manifest.bundleId := BundleFolder(w, archive, manifest)]
    {
      hide Print, DigestLine;
      root.WriteMember(nonce, MANIFEST, Print(manifest));
      root.WriteMember(nonce, MANIFEST_DIGEST, DigestLine(w, manifest));
      assert root.partials[nonce] == BundleFolder(w, archive, manifest);
      published := root.PublishPartial(nonce, manifest.bundleId);
      if !published {
        root.RemovePartial(nonce);
      }
    }

    // The part that runs in the partial directory and removes it.
    method FillAndPublish(nonce: string, archive: Option<string>, stamp: string, createdAt: string, suffix: string,
                          maxBytes: nat, deadline: Deadline) returns (r: Result<Manifest, Code>)
      requires IsFaithful(w) && ToolsAgree(dump, restore) && IsStamp(stamp) && IsTimestamp(createdAt) && maxBytes <= MAX_LIMIT
      requires nonce in root.partials && root.partials[nonce] == map[]
      modifies root, deadline
      ensures root.partials == old(root.partials) - {nonce}
      ensures r.Failure? ==> root.bundles == old(root.bundles)
      ensures r.Success? ==>
                && IsNewBackup(r.value, archive, stamp, createdAt, suffix, maxBytes)
                && r.value.bundleId !in old(root.bundles)
                && root.bundles == old(root.bundles)[r.value.bundleId := BundleFolder(w, archive.value, r.value)]
      ensures IsPunctual(deadline) ==>
                (r.Success? <==>
                   && archive.Some? && 0 < |archive.value| <= maxBytes && TocEntries(w, archive.value).Some?
                   && IsHex(suffix, 24) && IdOf(w, stamp, archive.value, suffix) !in old(root.bundles))
    {
      hide TocEntries, IsHex, IsStamp, IsTimestamp, ToolsAgree, BundleId, IsBundleOf, BundleFolder, DigestLine, IdOf, Work, IsFaithful;
      HashLengths(w);
      var inspected := DumpAndInspect(nonce, archive, maxBytes, deadline);
      if inspected.Failure? {
        root.RemovePartial(nonce);
        return Failure(inspected.error);
      }
      if !IsHex(suffix, 24) {
        root.RemovePartial(nonce);
        return Failure(InvalidConfiguration);
      }
      var (sha256, size, entries) := inspected.value;
      NonceLength(suffix);
      var manifest := Manifest(IdOf(w, stamp, archive.value, suffix), createdAt, sha256, size, entries, dump, restore);
      NewBundle(w, manifest, stamp, archive.value, suffix);
      var published := SealAndPublish(nonce, manifest, archive.value);
      return if published then Success(manifest) else Failure(InvalidPath);
    }

    predicate IsNewBackup(m: Manifest, archive: Option<string>, stamp: string, createdAt: string, suffix: string, maxBytes: nat) {
      && archive.Some? && 0 < |archive.value| <= maxBytes && TocEntries(w, archive.value) == Some(m.tocEntries)
      && m.archiveSha256 == w.hash(archive.value) && m.archiveSize == |archive.value|
      && m.dump == dump && m.restore == restore && m.createdAt == createdAt
      && IsHex(suffix, 24) && m.bundleId == IdOf(w, stamp, archive.value, suffix)
      && IsBundleOf(w, m.bundleId, BundleFolder(w, archive.value, m), m)
    }

    /**
     * A backup that succeeds publishes one new bundle, complete and under its own name, as the steps
     * of the protocol do; one that fails publishes nothing; neither leaves its partial directory behind.
     */
    method CreateBackup(nonce: string, archive: Option<string>, stamp: string, createdAt: string, suffix: string,
                        maxBytes: nat, deadline: Deadline) returns (r: Result<Manifest, Code>)
      requires IsFaithful(w) && IsStamp(stamp) && IsTimestamp(createdAt)
      modifies root, deadline
      ensures root.partials == old(root.partials)
      ensures r.Failure? ==> root.bundles == old(root.bundles)
      ensures r.Success? ==>
                && IsNewBackup(r.value, archive, stamp, createdAt, suffix, maxBytes)
                && r.value.bundleId !in old(root.bundles)
                && root.bundles == old(root.bundles)[r.value.bundleId := BundleFolder(w, archive.value, r.value)]
      ensures r.Success? ==>
                exists steps :: Follows(w, maxBytes, old(root.Contents()), steps, root.Contents(),
                                        Creator(nonce, dump, restore, Done(Some(r.value.bundleId))))
      ensures IsPunctual(deadline) ==>
                (r.Success? <==>
                   && 1 <= maxBytes <= 109_951_162_777_600 && IsToolchain(dump, restore, psql)
                   && IsHex(nonce, 24) && nonce !in old(root.partials)
                   && archive.Some? && 0 < |archive.value| <= maxBytes && TocEntries(w, archive.value).Some?
                   && IsHex(suffix, 24) && IdOf(w, stamp, archive.value, suffix) !in old(root.bundles))
    {
      hide TocEntries, IsHex, IsStamp, IsTimestamp, IsVersion, Major, IdOf, IsBundleOf, Follows, BundleFolder, DigestLine, IsFaithful, ToolsAgree;
      if maxBytes < 1 || maxBytes > MAX_LIMIT {
        return Failure(InvalidConfiguration);
      }
      var tools := ValidateToolchain(deadline);
      if tools.Some? {
        return Failure(tools.value);
      }
      ToolchainAgrees(dump, restore, psql);
      var made := root.MakePartial(nonce);
      if made.Some? {
        return Failure(made.value);
      }
      r := FillAndPublish(nonce, archive, stamp, createdAt, suffix, maxBytes, deadline);
      assert old(root.partials)[nonce := map[]] - {nonce} == old(root.partials);
      if r.Success? {
        ghost var steps := BackupIsRun(w, maxBytes, old(root.Contents()), nonce, archive.value, stamp, suffix, r.value);
        assert Follows(w, maxBytes, old(root.Contents()), steps, root.Contents(), Creator(nonce, dump, restore, Done(Some(r.value.bundleId))));
      }
    }

    // A complete bundle with this manifest, of the major version and within the limit of a verification.
    predicate IsAcceptable(id: string, m: Manifest, maxBytes: nat)
      reads root
    {
      id in root.bundles && IsBundleOf(w, id, root.bundles[id], m) && m.archiveSize <= maxBytes && Major(m.dump) == Major(restore)
    }

    /**
     * Given time, verification accepts exactly the complete bundles of the same major version and
     * within the size limit; what it accepts is always complete.
     */
    method VerifyBundle(id: string, nonce: string, maxBytes: nat, deadline: Deadline) returns (r: Result<Manifest, Code>)
      modifies root`partials, deadline
      ensures root.partials == old(root.partials)
      ensures r.Success? ==> IsAcceptable(id, r.value, maxBytes)
      ensures IsPunctual(deadline) && IsHex(nonce, 24) && nonce !in old(root.partials) ==>
                (r.Success? <==> exists m :: IsAcceptable(id, m, maxBytes))
    {
      hide TocEntries, IsHex, IsBundleId, Parse, Print, Major;
      if !IsBundleId(id) || id !in root.bundles || root.bundles[id].Keys != {ARCHIVE, MANIFEST, MANIFEST_DIGEST} {
        return Failure(InvalidPath);
      }
      var folder := root.bundles[id];
      if |folder[MANIFEST]| > MAX_MANIFEST_BYTES {
        return Failure(BackupIntegrity);
      }
      var parsed := Parse(folder[MANIFEST]);
      if parsed.None? || parsed.value.bundleId != id {
        return Failure(BackupIntegrity);
      }
      var manifest := parsed.value;
      if folder[MANIFEST_DIGEST] != DigestLine(w, manifest) {
        return Failure(BackupIntegrity);
      }
      if Major(manifest.dump) != Major(restore) {
        return Failure(ToolVersion);
      }
      var hashed := HashRegularFile(w, folder[ARCHIVE], maxBytes, deadline);
      if hashed.Failure? {
        return Failure(hashed.error);
      }
      if hashed.value.1 != manifest.archiveSize || hashed.value.0 != manifest.archiveSha256 {
        return Failure(BackupIntegrity);
      }
      var made := root.MakePartial(nonce);
      if made.Some? {
        return Failure(made.value);
      }
      var entries := InspectArchive(w, root, nonce, folder[ARCHIVE], deadline);
      root.RemovePartial(nonce);
      if entries.Failure? {
        return Failure(entries.error);
      }
      if entries.value != manifest.tocEntries {
        return Failure(BackupIntegrity);
      }
      assert IsBundleOf(w, id, folder, manifest);
      return Success(manifest);
    }

    method VerifyBackup(id: string, nonce: string, maxBytes: nat, deadline: Deadline) returns (r: Result<Manifest, Code>)
      modifies root`partials, deadline
      ensures root.partials == old(root.partials)
      ensures r.Success? ==> IsAcceptable(id, r.value, maxBytes)
      ensures IsPunctual(deadline) && IsHex(nonce, 24) && nonce !in old(root.partials) ==>
                (r.Success? <==>
                   1 <= maxBytes <= MAX_LIMIT && IsToolchain(dump, restore, psql) && exists m :: IsAcceptable(id, m, maxBytes))
    {
      hide IsAcceptable, IsHex, IsToolchain;
      if maxBytes < 1 || maxBytes > MAX_LIMIT {
        return Failure(InvalidConfiguration);
      }
      var tools := ValidateToolchain(deadline);
      if tools.Some? {
        return Failure(tools.value);
      }
      r := VerifyBundle(id, nonce, maxBytes, deadline);
    }

    /**
     * A backup just created passes verification, with its own manifest: by the same tools or others of
     * its major version, in time, in a fresh working directory, within any limit that the archive fits.
     */
    method CreateThenVerify(nonce: string, archive: Option<string>, stamp: string, createdAt: string, suffix: string,
                            maxBytes: nat, deadline: Deadline,
                            verifier: Continuity, nonce': string, limit: nat, later: Deadline)
        returns (created: Result<Manifest, Code>, verified: Result<Manifest, Code>)
      requires IsFaithful(w) && IsStamp(stamp) && IsTimestamp(createdAt)
      requires verifier.w == w && verifier.root == root && IsToolchain(verifier.dump, verifier.restore, verifier.psql)
      requires Major(verifier.restore) == Major(dump)
      requires IsPunctual(later) && IsHex(nonce', 24) && nonce' !in root.partials
      requires limit <= MAX_LIMIT && (archive.Some? ==> |archive.value| <= limit)
      modifies root, deadline, later
      ensures created.Success? ==> verified == created && created.value.bundleId !in old(root.bundles)
    {
      hide TocEntries, IsHex, IsStamp, IsTimestamp, IsToolchain, Major, IdOf, DigestLine, IsFaithful, Follows, Parse, Print, IsBundleId;
      created := CreateBackup(nonce, archive, stamp, createdAt, suffix, maxBytes, deadline);
      if created.Failure? {
        return created, created;
      }
      var m := created.value;
      assert verifier.IsAcceptable(m.bundleId, m, limit);
      verified := verifier.VerifyBackup(m.bundleId, nonce', limit, later);
      assert verifier.IsAcceptable(m.bundleId, m, limit);
    }
  }

  lemma HashLengths(w: World)
    requires IsFaithful(w)
    ensures forall s :: |w.hash(s)| == 64
  {
  }

  lemma NonceLength(nonce: string)
    requires IsHex(nonce, 24)
    ensures |nonce| == 24
  {
  }

  function IdOf(w: World, stamp: string, archive: string, suffix: string): string {
    if |w.hash(archive)| >= 12 && |suffix| >= 12 then BundleId(stamp, w.hash(archive), suffix) else ""
  }

  function BundleFolder(w: World, archive: string, m: Manifest): Folder {
    map[ARCHIVE := archive, MANIFEST := Print(m), MANIFEST_DIGEST := DigestLine(w, m)]
  }

  // The folder of a new backup is a bundle.
  lemma NewBundle(w: World, m: Manifest, stamp: string, archive: string, suffix: string)
    requires IsFaithful(w) && IsStamp(stamp) && IsHex(suffix, 24) && archive != ""
    requires m.bundleId == IdOf(w, stamp, archive, suffix) && m.archiveSha256 == w.hash(archive) && m.archiveSize == |archive|
    requires TocEntries(w, archive) == Some(m.tocEntries) && ToolsAgree(m.dump, m.restore)
    requires |archive| <= MAX_LIMIT && IsTimestamp(m.createdAt)
    ensures IsBundleOf(w, m.bundleId, BundleFolder(w, archive, m), m)
  {
    hide Parse, Print, TocEntries, BundleId, IsBundleId, IsStamp, IsTimestamp, IsVersion, MajorText;
    BundleIdValid(stamp, w.hash(archive), suffix);
    ListedWithinLimit(w, archive);
    assert IsHex(m.archiveSha256, 64);
    hide IsHex;
    assert IsValid(m);
    PrintedFits(m);
    ParseIffPrinted(Print(m), m);
    assert BundleFolder(w, archive, m).Keys == {ARCHIVE, MANIFEST, MANIFEST_DIGEST};
  }

  // The steps of a backup that succeeds.
  lemma BackupIsRun(w: World, maxBytes: nat, start: Root, nonce: string, archive: string, stamp: string, suffix: string, m: Manifest)
      returns (steps: seq<Step>)
    requires IsFaithful(w) && nonce !in start.partials && 0 < |archive| <= maxBytes && ToolsAgree(m.dump, m.restore)
    requires maxBytes <= MAX_LIMIT && IsTimestamp(m.createdAt)
    requires IsStamp(stamp) && IsHex(suffix, 24) && m.bundleId == IdOf(w, stamp, archive, suffix) && m.archiveSha256 == w.hash(archive) && m.archiveSize == |archive|
    requires TocEntries(w, archive) == Some(m.tocEntries) && m.bundleId !in start.bundles
    ensures Follows(w, maxBytes, start, steps, Root(start.bundles[m.bundleId := BundleFolder(w, archive, m)], start.partials),
                    Creator(nonce, m.dump, m.restore, Done(Some(m.bundleId))))
  {
    assert IsHex(w.hash(archive), 64) && IdOf(w, stamp, archive, suffix) == BundleId(stamp, w.hash(archive), suffix);
    hide Follows, IsHex, IsStamp, IsTimestamp, ToolsAgree, BundleId, TocEntries, DigestLine, Print, Operate, Next, WithWork;
    var folder: Folder := map[ARCHIVE := archive];
    steps := InspectedSteps(w, maxBytes, start, nonce, archive, m);
    var c := Creator(nonce, m.dump, m.restore, Inspected(m.archiveSha256, m.archiveSize, m.tocEntries));
    var r0 := WithWork(start, nonce, folder);
    NameStep(w, maxBytes, r0, c, m, stamp, suffix);
    Followed(w, maxBytes, start, steps, r0, c, Name(0, stamp, m.createdAt, suffix), r0, Prepared(m));
    steps := steps + [Name(0, stamp, m.createdAt, suffix)];
    FolderOfThree(w, archive, m);
    steps := PublishingSteps(w, maxBytes, start, nonce, folder, steps, c, m);
  }

  lemma FolderOfThree(w: World, archive: string, m: Manifest)
    ensures map[ARCHIVE := archive][MANIFEST := Print(m)][MANIFEST_DIGEST := DigestLine(w, m)] == BundleFolder(w, archive, m)
  {
    hide Print, DigestLine;
  }

  // The steps from the prepared manifest to the published bundle.
  lemma PublishingSteps(w: World, maxBytes: nat, start: Root, nonce: string, folder: Folder, done: seq<Step>, c: Creator, m: Manifest)
      returns (steps: seq<Step>)
    requires c.nonce == nonce && nonce !in start.partials && m.bundleId !in start.bundles
    requires Follows(w, maxBytes, start, done, WithWork(start, nonce, folder), c.(phase := Prepared(m)))
    ensures var bundle := folder[MANIFEST := Print(m)][MANIFEST_DIGEST := DigestLine(w, m)];
            Follows(w, maxBytes, start, steps, Root(start.bundles[m.bundleId := bundle], start.partials),
                    c.(phase := Done(Some(m.bundleId))))
  {
    hide Follows, Print, DigestLine, Operate, WithWork;
    var described, bundle := folder[MANIFEST := Print(m)], folder[MANIFEST := Print(m)][MANIFEST_DIGEST := DigestLine(w, m)];
    SealingSteps(w, maxBytes, start, nonce, folder, c, m);
    RenameStep(w, maxBytes, start, nonce, bundle, c, m);
    Advanced(w, maxBytes, start, done, WithWork(start, nonce, folder), c.(phase := Prepared(m)), WithWork(start, nonce, described), Described(m));
    steps := done + [Advance(0)];
    Advanced(w, maxBytes, start, steps, WithWork(start, nonce, described), c.(phase := Described(m)), WithWork(start, nonce, bundle), Sealed(m));
    steps := steps + [Advance(0)];
    Advanced(w, maxBytes, start, steps, WithWork(start, nonce, bundle), c.(phase := Sealed(m)),
             Root(start.bundles[m.bundleId := bundle], start.partials), Done(Some(m.bundleId)));
    steps := steps + [Advance(0)];
  }

  // One operation of the only creator.
  lemma Advanced(w: World, maxBytes: nat, start: Root, steps: seq<Step>, root: Root, c: Creator, root': Root, phase: Phase)
    requires Follows(w, maxBytes, start, steps, root, c) && Operate(w, root, c, maxBytes) == (root', phase)
    ensures Follows(w, maxBytes, start, steps + [Advance(0)], root', c.(phase := phase))
  {
    hide Operate, Follows;
    assert Next(w, maxBytes, State(root, [c]), Advance(0)) == State(root', [c.(phase := phase)]);
    Followed(w, maxBytes, start, steps, root, c, Advance(0), root', phase);
  }

  lemma NameStep(w: World, maxBytes: nat, root: Root, c: Creator, m: Manifest, stamp: string, suffix: string)
    requires c == Creator(c.nonce, m.dump, m.restore, Inspected(m.archiveSha256, m.archiveSize, m.tocEntries))
    requires IsTimestamp(m.createdAt) && m.archiveSize <= MAX_ARCHIVE_SIZE
    requires IsStamp(stamp) && IsHex(suffix, 24) && IsHex(m.archiveSha256, 64) && m.bundleId == BundleId(stamp, m.archiveSha256, suffix)
    ensures Next(w, maxBytes, State(root, [c]), Name(0, stamp, m.createdAt, suffix)) == State(root, [c.(phase := Prepared(m))])
  {
    assert |suffix| >= 12 && |m.archiveSha256| >= 12;
    hide BundleId, IsHex, IsStamp;
  }

  lemma SealingSteps(w: World, maxBytes: nat, start: Root, nonce: string, folder: Folder, c: Creator, m: Manifest)
    requires c.nonce == nonce
    ensures Operate(w, WithWork(start, nonce, folder), c.(phase := Prepared(m)), maxBytes)
            == (WithWork(start, nonce, folder[MANIFEST := Print(m)]), Described(m))
    ensures Operate(w, WithWork(start, nonce, folder[MANIFEST := Print(m)]), c.(phase := Described(m)), maxBytes)
            == (WithWork(start, nonce, folder[MANIFEST := Print(m)][MANIFEST_DIGEST := DigestLine(w, m)]), Sealed(m))
  {
    hide DigestLine;
    WorkTwice(start, nonce, folder, folder[MANIFEST := Print(m)]);
    WorkTwice(start, nonce, folder[MANIFEST := Print(m)], folder[MANIFEST := Print(m)][MANIFEST_DIGEST := DigestLine(w, m)]);
  }

  lemma WorkTwice(start: Root, nonce: string, a: Folder, b: Folder)
    ensures WithWork(WithWork(start, nonce, a), nonce, b) == WithWork(start, nonce, b) && Work(WithWork(start, nonce, a), nonce) == a
  {
    assert start.partials[nonce := a][nonce := b] == start.partials[nonce := b];
  }

  lemma RenameStep(w: World, maxBytes: nat, start: Root, nonce: string, folder: Folder, c: Creator, m: Manifest)
    requires c.nonce == nonce && nonce !in start.partials && m.bundleId !in start.bundles
    ensures Operate(w, WithWork(start, nonce, folder), c.(phase := Sealed(m)), maxBytes)
            == (Root(start.bundles[m.bundleId := folder], start.partials), Done(Some(m.bundleId)))
  {
    WorkTwice(start, nonce, folder, folder);
    assert start.partials[nonce := folder] - {nonce} == start.partials;
  }

  lemma InspectingSteps(w: World, maxBytes: nat, start: Root, nonce: string, archive: string, c: Creator, m: Manifest)
    requires c.nonce == nonce && 0 < |archive| <= maxBytes
    requires m.archiveSha256 == w.hash(archive) && m.archiveSize == |archive| && TocEntries(w, archive) == Some(m.tocEntries)
    ensures w.list(archive).Some?
    ensures var folder: Folder := map[ARCHIVE := archive];
            var r0, r1 := WithWork(start, nonce, folder), WithWork(start, nonce, folder[LISTING := w.list(archive).value]);
            && Operate(w, r0, c.(phase := Dumped), maxBytes) == (r0, Hashed(m.archiveSha256, m.archiveSize))
            && Operate(w, r0, c.(phase := Hashed(m.archiveSha256, m.archiveSize)), maxBytes) == (r1, Listed(m.archiveSha256, m.archiveSize))
            && Operate(w, r1, c.(phase := Listed(m.archiveSha256, m.archiveSize)), maxBytes)
               == (r0, Inspected(m.archiveSha256, m.archiveSize, m.tocEntries))
  {
    hide CountEntries;
    var folder: Folder := map[ARCHIVE := archive];
    var listed := folder[LISTING := w.list(archive).value];
    WorkTwice(start, nonce, folder, listed);
    WorkTwice(start, nonce, listed, folder);
    assert listed - {LISTING} == folder;
  }

  lemma DumpStep(w: World, maxBytes: nat, start: Root, nonce: string, archive: string, c: Creator)
    requires c.nonce == nonce && nonce !in start.partials
    ensures Operate(w, start, c.(phase := Begun), maxBytes) == (WithWork(start, nonce, map[]), Made)
    ensures Next(w, maxBytes, State(WithWork(start, nonce, map[]), [c.(phase := Made)]), Dump(0, archive, true))
            == State(WithWork(start, nonce, map[ARCHIVE := archive]), [c.(phase := Dumped)])
  {
    WorkTwice(start, nonce, map[], map[ARCHIVE := archive]);
    hide WithWork;
  }

  lemma InspectedSteps(w: World, maxBytes: nat, start: Root, nonce: string, archive: string, m: Manifest) returns (steps: seq<Step>)
    requires nonce !in start.partials && 0 < |archive| <= maxBytes && ToolsAgree(m.dump, m.restore)
    requires m.archiveSha256 == w.hash(archive) && m.archiveSize == |archive| && TocEntries(w, archive) == Some(m.tocEntries)
    ensures Follows(w, maxBytes, start, steps, WithWork(start, nonce, map[ARCHIVE := archive]),
                    Creator(nonce, m.dump, m.restore, Inspected(m.archiveSha256, m.archiveSize, m.tocEntries)))
  {
    hide Follows, TocEntries, Operate, Next, WithWork;
    var c := Creator(nonce, m.dump, m.restore, Begun);
    InspectingSteps(w, maxBytes, start, nonce, archive, c, m);
    DumpStep(w, maxBytes, start, nonce, archive, c);
    var folder: Folder := map[ARCHIVE := archive];
    var made, r0, r1 := WithWork(start, nonce, map[]), WithWork(start, nonce, folder), WithWork(start, nonce, folder[LISTING := w.list(archive).value]);
    steps := [Begin(nonce, m.dump, m.restore)];
    Started(w, maxBytes, start, nonce, m.dump, m.restore);
    Advanced(w, maxBytes, start, steps, start, c, made, Made);
    steps := steps + [Advance(0)];
    Followed(w, maxBytes, start, steps, made, c.(phase := Made), Dump(0, archive, true), r0, Dumped);
    steps := steps + [Dump(0, archive, true)];
    Advanced(w, maxBytes, start, steps, r0, c.(phase := Dumped), r0, Hashed(m.archiveSha256, m.archiveSize));
    steps := steps + [Advance(0)];
    Advanced(w, maxBytes, start, steps, r0, c.(phase := Hashed(m.archiveSha256, m.archiveSize)), r1, Listed(m.archiveSha256, m.archiveSize));
    steps := steps + [Advance(0)];
    Advanced(w, maxBytes, start, steps, r1, c.(phase := Listed(m.archiveSha256, m.archiveSize)), r0,
             Inspected(m.archiveSha256, m.archiveSize, m.tocEntries));
    steps := steps + [Advance(0)];
  }
}
