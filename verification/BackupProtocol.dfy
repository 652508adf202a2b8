/** Backups being created side by side in one root directory, each of them able to fail or crash between any two file operations. */
module BackupProtocol {
  import opened Wrappers
  import opened Strings
  import opened BackupManifest
  import opened BackupBundle

  // Published bundles and partial directories, by name.
  datatype Root = Root(bundles: map<string, Folder>, partials: map<string, Folder>)

  datatype Phase =
    | Begun
    | Made                                          // the partial directory exists
    | Dumped
    | Hashed(sha256: string, size: nat)
    | Listed(sha256: string, size: nat)             // the listing is in the directory
    | Inspected(sha256: string, size: nat, entries: nat)
    | Prepared(manifest: Manifest)
    | Described(manifest: Manifest)                 // the manifest is written
    | Sealed(manifest: Manifest)                    // the digest line is written
    | Removing
    | Done(bundle: Option<string>)
    | Crashed

  // The nonce names the partial directory.
  datatype Creator = Creator(nonce: string, dump: string, restore: string, phase: Phase)

  datatype State = State(root: Root, creators: seq<Creator>)

  datatype Step =
    | Begin(nonce: string, dump: string, restore: string)
    | Dump(i: nat, archive: string, finished: bool)
    | Advance(i: nat)
    | Name(i: nat, stamp: string, createdAt: string, suffix: string)
    | Fail(i: nat)
    | Crash(i: nat)

  predicate ToolsAgree(dump: string, restore: string) { IsVersion(dump) && IsVersion(restore) && MajorText(dump) == MajorText(restore) }

  // The partial directory of a creator that has one.
  predicate Owns(c: Creator) {
    !(c.phase.Begun? || c.phase.Done? || c.phase.Crashed?)
  }

  function Work(root: Root, nonce: string): Folder { if nonce in root.partials then root.partials[nonce] else map[] }

  function WithWork(root: Root, nonce: string, folder: Folder): Root { root.(partials := root.partials[nonce := folder]) }

  // One operation of a creator; none means that it fails and the partial directory is to be removed.
  function Operate(w: World, root: Root, c: Creator, maxBytes: nat): (Root, Phase) {
    var folder := Work(root, c.nonce);
    match c.phase
    case Begun => if c.nonce in root.partials then (root, Done(None)) else (WithWork(root, c.nonce, map[]), Made)
    case Dumped =>
      if ARCHIVE in folder && 0 < |folder[ARCHIVE]| <= maxBytes then (root, Hashed(w.hash(folder[ARCHIVE]), |folder[ARCHIVE]|))
      else (root, Removing)
    case Hashed(sha256, size) =>
      if ARCHIVE in folder && w.list(folder[ARCHIVE]).Some?
      then (WithWork(root, c.nonce, folder[LISTING := w.list(folder[ARCHIVE]).value]), Listed(sha256, size))
      else (root, Removing)
    case Listed(sha256, size) =>
      if LISTING in folder && |folder[LISTING]| <= MAX_TOC_BYTES && 0 < CountEntries(w.splitlines(folder[LISTING])) <= MAX_TOC_ENTRIES
      then (WithWork(root, c.nonce, folder - {LISTING}), Inspected(sha256, size, CountEntries(w.splitlines(folder[LISTING]))))
      else (root, Removing)
    case Prepared(m) => (WithWork(root, c.nonce, folder[MANIFEST := Print(m)]), Described(m))
    case Described(m) => (WithWork(root, c.nonce, folder[MANIFEST_DIGEST := DigestLine(w, m)]), Sealed(m))
    case Sealed(m) =>
      // Renaming onto an existing bundle, which is never empty, fails as the check before it does.
      if m.bundleId in root.bundles then (root, Removing)
      else (Root(root.bundles[m.bundleId := folder], root.partials - {c.nonce}), Done(Some(m.bundleId)))
    case Removing => (root.(partials := root.partials - {c.nonce}), Done(None))
    case _ => (root, c.phase)
  }

  function Update(s: State, i: nat, root: Root, phase: Phase): State
    requires i < |s.creators|
  {
    State(root, s.creators[i := s.creators[i].(phase := phase)])
  }

  // The next state; a step that is not enabled changes nothing.
  function Next(w: World, maxBytes: nat, s: State, step: Step): State {
    match step
    case Begin(nonce, dump, restore) =>
      if ToolsAgree(dump, restore) then s.(creators := s.creators + [Creator(nonce, dump, restore, Begun)]) else s
    case Dump(i, archive, finished) =>
      if i < |s.creators| && s.creators[i].phase.Made?
      then Update(s, i, WithWork(s.root, s.creators[i].nonce, map[ARCHIVE := archive]), if finished then Dumped else Made)
      else s
    case Advance(i) =>
      if i < |s.creators| then var (root, phase) := Operate(w, s.root, s.creators[i], maxBytes); Update(s, i, root, phase) else s
    case Name(i, stamp, createdAt, suffix) =>
      if i < |s.creators| && s.creators[i].phase.Inspected? then
        var c := s.creators[i];
        if IsStamp(stamp) && IsTimestamp(createdAt) && IsHex(suffix, 24) && IsHex(c.phase.sha256, 64) && c.phase.size <= MAX_ARCHIVE_SIZE then
          Update(s, i, s.root, Prepared(Manifest(BundleId(stamp, c.phase.sha256, suffix), createdAt, c.phase.sha256, c.phase.size,
                                                 c.phase.entries, c.dump, c.restore)))
        else Update(s, i, s.root, Removing)
      else s
    case Fail(i) =>
      if i < |s.creators| && Owns(s.creators[i]) then Update(s, i, s.root, Removing) else s
    case Crash(i) =>
      if i < |s.creators| && !s.creators[i].phase.Done? then Update(s, i, s.root, Crashed) else s
  }

  function Run(w: World, maxBytes: nat, s: State, steps: seq<Step>): State
    decreases |steps|
  {
    if steps == [] then s else Run(w, maxBytes, Next(w, maxBytes, s, steps[0]), steps[1..])
  }

  // ---------- the invariant ----------

  predicate HasArchive(w: World, folder: Folder, sha256: string, size: nat) {
    ARCHIVE in folder && w.hash(folder[ARCHIVE]) == sha256 && |folder[ARCHIVE]| == size > 0
  }

  predicate IsManifestOf(w: World, folder: Folder, m: Manifest) {
    IsValid(m) && ARCHIVE in folder && Describes(w, m, folder[ARCHIVE])
  }

  // What a creator's phase says about its directory.
  predicate IsSound(w: World, root: Root, c: Creator) {
    && ToolsAgree(c.dump, c.restore)
    && (Owns(c) ==> c.nonce in root.partials)
    && var folder := Work(root, c.nonce);
       match c.phase
       case Dumped => folder.Keys == {ARCHIVE}
       case Hashed(sha256, size) => folder.Keys == {ARCHIVE} && HasArchive(w, folder, sha256, size)
       case Listed(sha256, size) =>
         folder.Keys == {ARCHIVE, LISTING} && HasArchive(w, folder, sha256, size) && w.list(folder[ARCHIVE]) == Some(folder[LISTING])
       case Inspected(sha256, size, entries) =>
         folder.Keys == {ARCHIVE} && HasArchive(w, folder, sha256, size) && TocEntries(w, folder[ARCHIVE]) == Some(entries)
       case Prepared(m) => folder.Keys == {ARCHIVE} && IsManifestOf(w, folder, m)
       case Described(m) => folder.Keys == {ARCHIVE, MANIFEST} && IsManifestOf(w, folder, m) && folder[MANIFEST] == Print(m)
       case Sealed(m) => IsBundleOf(w, m.bundleId, folder, m)
       case _ => true
  }

  predicate Sound(w: World, s: State) { forall i :: 0 <= i < |s.creators| ==> IsSound(w, s.root, s.creators[i]) }

  // No two creators work in the same partial directory.
  predicate Exclusive(s: State) {
    forall i, j :: 0 <= i < j < |s.creators| && Owns(s.creators[i]) && Owns(s.creators[j]) ==> s.creators[i].nonce != s.creators[j].nonce
  }

  ghost predicate Complete(w: World, root: Root, before: set<string>) {
    forall id :: id in root.bundles && id !in before ==> IsComplete(w, id, root.bundles[id])
  }

  ghost predicate Inv(w: World, before: set<string>, s: State) {
    Sound(w, s) && Exclusive(s) && Complete(w, s.root, before)
  }

  predicate KeepsBundles(a: Root, b: Root) { forall id :: id in a.bundles ==> id in b.bundles && b.bundles[id] == a.bundles[id] }

  // ---------- preservation ----------

  // The operations of a creator change no partial directory but its own.
  ghost predicate OnlyOwn(a: Root, b: Root, nonce: string) {
    forall n :: n != nonce ==> (n in a.partials <==> n in b.partials) && Work(a, n) == Work(b, n)
  }

  lemma Moves(w: World, before: set<string>, s: State, i: nat, root: Root, phase: Phase)
    requires Inv(w, before, s) && i < |s.creators| && OnlyOwn(s.root, root, s.creators[i].nonce) && KeepsBundles(s.root, root)
    requires IsSound(w, root, s.creators[i].(phase := phase))
    requires Owns(s.creators[i]) || (root == s.root && !Owns(s.creators[i].(phase := phase)))
             || s.creators[i].nonce !in s.root.partials
    requires forall id :: id in root.bundles && id !in s.root.bundles ==> IsComplete(w, id, root.bundles[id])
    ensures Inv(w, before, Update(s, i, root, phase))
  {
    hide IsBundleOf, IsManifestOf, HasArchive, TocEntries, ToolsAgree, Print, Parse;
    var c, t := s.creators[i], Update(s, i, root, phase);
    forall j | 0 <= j < |s.creators| && j != i ensures IsSound(w, root, s.creators[j]) {
      OthersSound(w, s, i, j, root, phase);
    }
    forall j | 0 <= j < |s.creators| ensures Owns(s.creators[j]) ==> s.creators[j].nonce in s.root.partials {
      assert IsSound(w, s.root, s.creators[j]);
    }
    hide IsSound, IsComplete;
    assert forall j :: 0 <= j < |t.creators| && j != i ==> t.creators[j] == s.creators[j];
  }

  lemma OthersSound(w: World, s: State, i: nat, j: nat, root: Root, phase: Phase)
    requires Sound(w, s) && Exclusive(s) && i < |s.creators| && j < |s.creators| && i != j
    requires OnlyOwn(s.root, root, s.creators[i].nonce)
    requires Owns(s.creators[i]) || (root == s.root && !Owns(s.creators[i].(phase := phase)))
             || s.creators[i].nonce !in s.root.partials
    ensures IsSound(w, root, s.creators[j])
  {
    var c := s.creators[j];
    assert IsSound(w, s.root, c);
    hide IsBundleOf, IsManifestOf, HasArchive, TocEntries;
    if Owns(c) && root != s.root {
      assert c.nonce != s.creators[i].nonce;
      assert Work(root, c.nonce) == Work(s.root, c.nonce);
    }
  }

  lemma AdvanceKeeps(w: World, maxBytes: nat, before: set<string>, s: State, i: nat)
    requires Inv(w, before, s) && i < |s.creators|
    ensures Inv(w, before, Next(w, maxBytes, s, Advance(i))) && KeepsBundles(s.root, Next(w, maxBytes, s, Advance(i)).root)
  {
    var c := s.creators[i];
    assert IsSound(w, s.root, c);
    var (root, phase) := Operate(w, s.root, c, maxBytes);
    OperateSound(w, s.root, c, maxBytes);
    hide IsSound, Operate, IsComplete;
    assert IsSoundMove(w, s.root, c, root, phase);
    Moves(w, before, s, i, root, phase);
  }

  // What an operation owes: it touches its own directory only, and what it says next is true.
  ghost predicate IsSoundMove(w: World, root: Root, c: Creator, root': Root, phase: Phase) {
    && OnlyOwn(root, root', c.nonce) && KeepsBundles(root, root')
    && IsSound(w, root', c.(phase := phase))
    && (Owns(c) || (root' == root && !Owns(c.(phase := phase))) || c.nonce !in root.partials)
    && forall id :: id in root'.bundles && id !in root.bundles ==> IsComplete(w, id, root'.bundles[id])
  }

  lemma OperateSound(w: World, root: Root, c: Creator, maxBytes: nat)
    requires IsSound(w, root, c)
    ensures var (root', phase) := Operate(w, root, c, maxBytes); IsSoundMove(w, root, c, root', phase)
  {
    if c.phase.Dumped? || c.phase.Hashed? || c.phase.Listed? {
      InspectingSound(w, root, c, maxBytes);
    } else if c.phase.Prepared? || c.phase.Described? {
      WritingSound(w, root, c, maxBytes);
    } else {
      EndsSound(w, root, c, maxBytes);
    }
  }

  lemma InspectingSound(w: World, root: Root, c: Creator, maxBytes: nat)
    requires IsSound(w, root, c) && (c.phase.Dumped? || c.phase.Hashed? || c.phase.Listed?)
    ensures var (root', phase) := Operate(w, root, c, maxBytes); IsSoundMove(w, root, c, root', phase)
  {
    if c.phase.Dumped? {
      HashingSound(w, root, c, maxBytes);
    } else if c.phase.Hashed? {
      ListingSound(w, root, c, maxBytes);
    } else {
      CountingSound(w, root, c, maxBytes);
    }
  }

  lemma HashingSound(w: World, root: Root, c: Creator, maxBytes: nat)
    requires IsSound(w, root, c) && c.phase.Dumped?
    ensures var (root', phase) := Operate(w, root, c, maxBytes); IsSoundMove(w, root, c, root', phase)
  {
    hide CountEntries, TocEntries, IsBundleOf, IsManifestOf, IsComplete, ToolsAgree, Print, Parse, DigestLine;
  }

  lemma ListingSound(w: World, root: Root, c: Creator, maxBytes: nat)
    requires IsSound(w, root, c) && c.phase.Hashed?
    ensures var (root', phase) := Operate(w, root, c, maxBytes); IsSoundMove(w, root, c, root', phase)
  {
    hide CountEntries, TocEntries, IsBundleOf, IsManifestOf, IsComplete, ToolsAgree, Print, Parse, DigestLine;
    var folder := Work(root, c.nonce);
    if w.list(folder[ARCHIVE]).Some? {
      assert folder[LISTING := w.list(folder[ARCHIVE]).value].Keys == {ARCHIVE, LISTING};
    }
  }

  lemma CountingSound(w: World, root: Root, c: Creator, maxBytes: nat)
    requires IsSound(w, root, c) && c.phase.Listed?
    ensures var (root', phase) := Operate(w, root, c, maxBytes); IsSoundMove(w, root, c, root', phase)
  {
    hide CountEntries, IsBundleOf, IsManifestOf, IsComplete, ToolsAgree, Print, Parse, DigestLine;
    assert (Work(root, c.nonce) - {LISTING}).Keys == {ARCHIVE};
  }

  lemma WritingSound(w: World, root: Root, c: Creator, maxBytes: nat)
    requires IsSound(w, root, c) && (c.phase.Prepared? || c.phase.Described?)
    ensures var (root', phase) := Operate(w, root, c, maxBytes); IsSoundMove(w, root, c, root', phase)
  {
    if c.phase.Prepared? {
      DescribingSound(w, root, c, maxBytes);
    } else {
      SealingSound(w, root, c, maxBytes);
    }
  }

  lemma DescribingSound(w: World, root: Root, c: Creator, maxBytes: nat)
    requires IsSound(w, root, c) && c.phase.Prepared?
    ensures var (root', phase) := Operate(w, root, c, maxBytes); IsSoundMove(w, root, c, root', phase)
  {
    hide CountEntries, TocEntries, IsBundleOf, IsComplete, ToolsAgree, Print, Parse, DigestLine, Describes, IsValid;
    assert Work(root, c.nonce)[MANIFEST := Print(c.phase.manifest)].Keys == {ARCHIVE, MANIFEST};
  }

  lemma SealingSound(w: World, root: Root, c: Creator, maxBytes: nat)
    requires IsSound(w, root, c) && c.phase.Described?
    ensures var (root', phase) := Operate(w, root, c, maxBytes); IsSoundMove(w, root, c, root', phase)
  {
    hide CountEntries, TocEntries, IsBundleOf, IsComplete, ToolsAgree, Print, Parse, DigestLine;
    SealedBundle(w, Work(root, c.nonce), c.phase.manifest);
  }

  // The digest line completes the bundle.
  lemma SealedBundle(w: World, folder: Folder, m: Manifest)
    requires folder.Keys == {ARCHIVE, MANIFEST} && IsManifestOf(w, folder, m) && folder[MANIFEST] == Print(m)
    ensures IsBundleOf(w, m.bundleId, folder[MANIFEST_DIGEST := DigestLine(w, m)], m)
  {
    hide TocEntries, IsHex, IsStamp, IsTimestamp, IsVersion, MajorText, Print, Parse, Describes;
    PrintedFits(m);
    ParseIffPrinted(Print(m), m);
    assert folder[MANIFEST_DIGEST := DigestLine(w, m)].Keys == {ARCHIVE, MANIFEST, MANIFEST_DIGEST};
  }

  lemma EndsSound(w: World, root: Root, c: Creator, maxBytes: nat)
    requires IsSound(w, root, c)
    requires !(c.phase.Dumped? || c.phase.Hashed? || c.phase.Listed? || c.phase.Prepared? || c.phase.Described?)
    ensures var (root', phase) := Operate(w, root, c, maxBytes); IsSoundMove(w, root, c, root', phase)
  {
    if c.phase.Sealed? {
      RenamingSound(w, root, c, maxBytes);
    } else {
      OtherwiseSound(w, root, c, maxBytes);
    }
  }

  lemma RenamingSound(w: World, root: Root, c: Creator, maxBytes: nat)
    requires IsSound(w, root, c) && c.phase.Sealed?
    ensures var (root', phase) := Operate(w, root, c, maxBytes); IsSoundMove(w, root, c, root', phase)
  {
    hide CountEntries, TocEntries, IsBundleOf, IsManifestOf, HasArchive, ToolsAgree, Print, Parse, DigestLine;
    assert IsComplete(w, c.phase.manifest.bundleId, Work(root, c.nonce));
    hide IsComplete;
  }

  lemma OtherwiseSound(w: World, root: Root, c: Creator, maxBytes: nat)
    requires IsSound(w, root, c)
    requires !(c.phase.Dumped? || c.phase.Hashed? || c.phase.Listed? || c.phase.Prepared? || c.phase.Described? || c.phase.Sealed?)
    ensures var (root', phase) := Operate(w, root, c, maxBytes); IsSoundMove(w, root, c, root', phase)
  {
    hide CountEntries, TocEntries, IsBundleOf, IsManifestOf, HasArchive, IsComplete, ToolsAgree, Print, Parse, DigestLine;
  }

  lemma NameKeeps(w: World, maxBytes: nat, before: set<string>, s: State, i: nat, stamp: string, createdAt: string, suffix: string)
    requires Inv(w, before, s) && i < |s.creators| && s.creators[i].phase.Inspected?
    ensures Inv(w, before, Next(w, maxBytes, s, Name(i, stamp, createdAt, suffix)))
    ensures Next(w, maxBytes, s, Name(i, stamp, createdAt, suffix)).root == s.root
  {
    hide Print, Parse, IsTimestamp, IsVersion, MajorText, IsBundleOf, TocEntries;
    var c := s.creators[i];
    assert IsSound(w, s.root, c);
    var t := Next(w, maxBytes, s, Name(i, stamp, createdAt, suffix));
    if IsStamp(stamp) && IsTimestamp(createdAt) && IsHex(suffix, 24) && IsHex(c.phase.sha256, 64) && c.phase.size <= MAX_ARCHIVE_SIZE {
      BundleIdValid(stamp, c.phase.sha256, suffix);
      ListedWithinLimit(w, Work(s.root, c.nonce)[ARCHIVE]);
      hide BundleId, IsHex, IsStamp, IsBundleId;
      assert IsSound(w, s.root, t.creators[i]);
    }
    hide Next, IsSound, IsHex, IsStamp;
    Moves(w, before, s, i, s.root, t.creators[i].phase);
  }

  lemma ListedWithinLimit(w: World, archive: string)
    ensures TocEntries(w, archive).Some? ==> 0 < TocEntries(w, archive).value <= MAX_TOC_ENTRIES
  {
  }

  lemma DumpKeeps(w: World, maxBytes: nat, before: set<string>, s: State, i: nat, archive: string, finished: bool)
    requires Inv(w, before, s) && i < |s.creators| && s.creators[i].phase.Made?
    ensures var t := Next(w, maxBytes, s, Dump(i, archive, finished)); Inv(w, before, t) && t.root.bundles == s.root.bundles
  {
    hide IsBundleOf, IsManifestOf, HasArchive, TocEntries, ToolsAgree, Print, Parse;
    var c := s.creators[i];
    assert IsSound(w, s.root, c);
    var root := WithWork(s.root, c.nonce, map[ARCHIVE := archive]);
    var phase := if finished then Dumped else Made;
    assert map[ARCHIVE := archive].Keys == {ARCHIVE};
    assert IsSound(w, root, c.(phase := phase));
    hide IsSound;
    Moves(w, before, s, i, root, phase);
  }

  lemma StopKeeps(w: World, before: set<string>, s: State, i: nat, phase: Phase)
    requires Inv(w, before, s) && i < |s.creators| && (phase.Crashed? || (phase.Removing? && Owns(s.creators[i])))
    ensures Inv(w, before, Update(s, i, s.root, phase))
  {
    assert IsSound(w, s.root, s.creators[i]);
    assert IsSound(w, s.root, s.creators[i].(phase := phase));
    hide IsSound;
    Moves(w, before, s, i, s.root, phase);
  }

  /** Every operation leaves every visible bundle complete, and as it was. */
  lemma NextKeeps(w: World, maxBytes: nat, before: set<string>, s: State, step: Step)
    requires Inv(w, before, s)
    ensures Inv(w, before, Next(w, maxBytes, s, step)) && KeepsBundles(s.root, Next(w, maxBytes, s, step).root)
  {
    hide Print, Parse, IsTimestamp, IsStamp, IsHex, IsBundleOf, IsManifestOf, Describes, HasArchive, Operate, ToolsAgree;
    match step
    case Begin(_, _, _) =>
      hide IsComplete;
      var t := Next(w, maxBytes, s, step);
      assert forall i :: 0 <= i < |s.creators| ==> t.creators[i] == s.creators[i] && IsSound(w, s.root, s.creators[i]);
    case Dump(i, archive, finished) =>
      if i < |s.creators| && s.creators[i].phase.Made? {
        DumpKeeps(w, maxBytes, before, s, i, archive, finished);
        hide Inv;
      }
    case Advance(i) =>
      if i < |s.creators| {
        AdvanceKeeps(w, maxBytes, before, s, i);
      }
    case Name(i, stamp, createdAt, suffix) =>
      if i < |s.creators| && s.creators[i].phase.Inspected? {
        NameKeeps(w, maxBytes, before, s, i, stamp, createdAt, suffix);
        hide Inv;
      }
    case Fail(i) =>
      if i < |s.creators| && Owns(s.creators[i]) {
        StopKeeps(w, before, s, i, Removing);
      }
    case Crash(i) =>
      if i < |s.creators| && !s.creators[i].phase.Done? {
        StopKeeps(w, before, s, i, Crashed);
      }
  }

  lemma {:induction false} RunKeeps(w: World, maxBytes: nat, before: set<string>, s: State, steps: seq<Step>)
    requires Inv(w, before, s)
    ensures Inv(w, before, Run(w, maxBytes, s, steps)) && KeepsBundles(s.root, Run(w, maxBytes, s, steps).root)
    decreases |steps|
  {
    hide Inv, Next;
    if steps != [] {
      NextKeeps(w, maxBytes, before, s, steps[0]);
      RunKeeps(w, maxBytes, before, Next(w, maxBytes, s, steps[0]), steps[1..]);
    }
  }

  /** In every interleaving of backups that finish, fail or crash, a bundle that becomes visible is complete, and stays as it is. */
  lemma VisibleBundlesAreComplete(w: World, maxBytes: nat, root: Root, steps: seq<Step>, later: seq<Step>, id: string)
    requires id !in root.bundles && id in Run(w, maxBytes, State(root, []), steps).root.bundles
    ensures var s := Run(w, maxBytes, State(root, []), steps);
            && IsComplete(w, id, s.root.bundles[id])
            && id in Run(w, maxBytes, s, later).root.bundles && Run(w, maxBytes, s, later).root.bundles[id] == s.root.bundles[id]
  {
    hide IsComplete, Run, IsSound;
    RunKeeps(w, maxBytes, root.bundles.Keys, State(root, []), steps);
    RunKeeps(w, maxBytes, root.bundles.Keys, Run(w, maxBytes, State(root, []), steps), later);
  }
}
