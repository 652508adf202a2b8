/** What a PostgreSQL backup bundle is: an archive, a canonical manifest of it, and the manifest's digest line. */
module BackupBundle {
  import opened Wrappers
  import opened Digest
  import opened Strings
  import opened BackupManifest

  const ARCHIVE := "database.dump"
  const MANIFEST := "manifest.json"
  const MANIFEST_DIGEST := "manifest.sha256"
  const LISTING := "archive.toc"
  const MAX_TOC_BYTES := 64 * 1024 * 1024

  // A directory of regular files.
  type Folder = map<string, string>

  // SHA-256, what pg_restore lists for an archive (none when it fails), and bytes.splitlines.
  datatype World = World(hash: string -> string, list: string -> Option<string>, splitlines: string -> seq<string>)

  ghost predicate IsFaithful(w: World) { forall s :: IsHex(w.hash(s), 64) }

  /** Whatever the tool lists, some digest function is faithful. */
  lemma FaithfulWorldExists(list: string -> Option<string>, splitlines: string -> seq<string>)
    ensures exists w :: IsFaithful(w) && w.list == list && w.splitlines == splitlines
  {
    var zeros := seq(64, _ => '0');
    var w := World(_ => zeros, list, splitlines);
    assert IsHex(zeros, 64);
    assert IsFaithful(w);
  }

  function DigestLine(w: World, m: Manifest): string { w.hash(Print(m)) + "  " + MANIFEST + "\n" }

  // ---------- the table of contents ----------

  predicate IsBlank(c: char) { c == ' ' || '\t' <= c <= '\r' }

  // A line with something on it that is not a comment.
  predicate IsEntry(line: string) {
    line != "" && if IsBlank(line[0]) then IsEntry(line[1..]) else line[0] != ';'
  }

  function CountEntries(lines: seq<string>): nat {
    if lines == [] then 0
    else CountEntries(lines[..|lines| - 1]) + if IsEntry(lines[|lines| - 1]) then 1 else 0
  }

  // Blanks, and then a character that is neither blank nor the start of a comment.
  predicate HasEntryAt(line: string, k: nat) {
    && k < |line| && (forall i :: 0 <= i < k ==> line[i] in {' ', '\t', '\n', 11 as char, 12 as char, '\r'})
    && line[k] !in {' ', '\t', '\n', 11 as char, 12 as char, '\r', ';'}
  }

  ghost function EntryLines(lines: seq<string>): set<nat> { set i: nat | i < |lines| && exists k :: HasEntryAt(lines[i], k) }

  lemma {:induction false} EntryIff(line: string)
    ensures IsEntry(line) <==> exists k :: HasEntryAt(line, k)
    decreases |line|
  {
    if line != "" {
      EntryIff(line[1..]);
      if k: nat :| HasEntryAt(line, k) {
        if k > 0 {
          assert HasEntryAt(line[1..], k - 1);
        }
      }
      if k: nat :| HasEntryAt(line[1..], k) && IsBlank(line[0]) {
        assert HasEntryAt(line, k + 1) by {
          forall i | 0 <= i < k + 1 ensures line[i] in {' ', '\t', '\n', 11 as char, 12 as char, '\r'} {
            assert i > 0 ==> line[i] == line[1..][i - 1];
          }
        }
      }
      if IsEntry(line) && !IsBlank(line[0]) {
        assert HasEntryAt(line, 0);
      }
    }
  }

  /** The entries of a listing are its lines that are neither blank nor comments. */
  lemma {:induction false} CountIsEntries(lines: seq<string>)
    ensures CountEntries(lines) == |EntryLines(lines)|
    decreases |lines|
  {
    if lines == [] {
      assert EntryLines(lines) == {};
    } else {
      var n := |lines| - 1;
      CountIsEntries(lines[..n]);
      EntryIff(lines[n]);
      hide IsEntry, HasEntryAt;
      var before := EntryLines(lines[..n]);
      forall i: nat ensures i in EntryLines(lines) <==> i in before || (i == n && IsEntry(lines[n])) {
        assert i < n ==> lines[i] == lines[..n][i];
      }
      assert EntryLines(lines) == if IsEntry(lines[n]) then before + {n} else before;
    }
  }

  // The number of entries of an archive, when its listing is acceptable.
  function TocEntries(w: World, archive: string): Option<nat> {
    match w.list(archive)
    case None => None
    case Some(text) =>
      var n := CountEntries(w.splitlines(text));
      if |text| <= MAX_TOC_BYTES && 0 < n <= MAX_TOC_ENTRIES then Some(n) else None
  }

  /** An archive has n entries when its listing is within 64 MiB and has n lines that are entries; one without any is refused. */
  lemma TocIs(w: World, archive: string, n: nat)
    ensures TocEntries(w, archive) == Some(n) <==>
              && w.list(archive).Some? && |w.list(archive).value| <= 67_108_864
              && n == |EntryLines(w.splitlines(w.list(archive).value))| && 1 <= n <= 50_000_000
  {
    hide CountEntries, EntryLines;
    if w.list(archive).Some? {
      CountIsEntries(w.splitlines(w.list(archive).value));
    }
  }

  // ---------- a complete bundle ----------

  predicate Describes(w: World, m: Manifest, archive: string) {
    && w.hash(archive) == m.archiveSha256 && |archive| == m.archiveSize > 0
    && TocEntries(w, archive) == Some(m.tocEntries)
  }

  // All three members, the manifest in its own canonical form and true of the archive.
  predicate IsBundleOf(w: World, id: string, folder: Folder, m: Manifest) {
    && IsBundleId(id) && m.bundleId == id
    && folder.Keys == {ARCHIVE, MANIFEST, MANIFEST_DIGEST}
    && |folder[MANIFEST]| <= MAX_MANIFEST_BYTES
    && Parse(folder[MANIFEST]) == Some(m)
    && folder[MANIFEST_DIGEST] == DigestLine(w, m)
    && Describes(w, m, folder[ARCHIVE])
  }

  ghost predicate IsComplete(w: World, id: string, folder: Folder) { exists m :: IsBundleOf(w, id, folder, m) }

  /** The three files of a bundle: the archive, its manifest, and a line with the manifest's digest. */
  lemma BundleFiles(w: World, id: string, folder: Folder, m: Manifest)
    requires IsBundleOf(w, id, folder, m)
    ensures m.bundleId == id && IsValid(m) && folder.Keys == {"database.dump", "manifest.json", "manifest.sha256"}
    ensures folder["manifest.json"] == Print(m)
    ensures folder["manifest.sha256"] == w.hash(folder["manifest.json"]) + "  manifest.json\n"
    ensures w.hash(folder["database.dump"]) == m.archiveSha256 && |folder["database.dump"]| == m.archiveSize
    ensures m.bundleId[28..40] == w.hash(folder["database.dump"])[..12]
  {
    hide IsBundleId, Print, TocEntries, Parse, IsTimestamp, IsVersion;
    ParseIffPrinted(folder[MANIFEST], m);
    assert w.hash(Print(m)) + "  " + MANIFEST + "\n" == w.hash(Print(m)) + "  manifest.json\n";
  }

  /** Acceptance pins the archive: with a collision-free digest two complete bundles under one digest line hold the same bytes. */
  lemma DigestPinsBundle(w: World, id: string, a: Folder, b: Folder, m: Manifest, n: Manifest)
    requires CollisionFree(w.hash)
    requires IsHex(w.hash(Print(m)), 64) && IsHex(w.hash(Print(n)), 64)
    requires IsBundleOf(w, id, a, m) && IsBundleOf(w, id, b, n) && a[MANIFEST_DIGEST] == b[MANIFEST_DIGEST]
    ensures a == b
  {
    hide IsHex, IsBundleId, TocEntries, Parse, Print, IsValid;
    var tail := "  " + MANIFEST + "\n";
    assert a[MANIFEST_DIGEST] == w.hash(Print(m)) + tail && b[MANIFEST_DIGEST] == w.hash(Print(n)) + tail;
    assert (w.hash(Print(m)) + tail)[..|w.hash(Print(m))|] == w.hash(Print(m));
    assert (w.hash(Print(n)) + tail)[..|w.hash(Print(n))|] == w.hash(Print(n));
    assert |w.hash(Print(m))| == |a[MANIFEST_DIGEST]| - |tail| == |w.hash(Print(n))|;
    assert Print(m) == Print(n);
    ParseIffPrinted(a[MANIFEST], m);
    ParseIffPrinted(b[MANIFEST], n);
  }
}
