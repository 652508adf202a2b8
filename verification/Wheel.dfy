/** Rebuilding the patched wheel and checking its RECORD. */
module Wheel {
  import opened Digest
  import opened Wrappers
  import opened Sorting
  import opened TextReplace
  import Decimal
  import UnifiedDiff

  // Encodings fixed elsewhere: the URL-safe SHA-256 text, and CSV.
  datatype Formats = Formats(
    digest: string -> string,
    readCsv: string -> seq<seq<string>>,
    writeCsv: seq<seq<string>> -> string)

  ghost predicate CsvRoundTrips(f: Formats) { forall rows :: f.readCsv(f.writeCsv(rows)) == rows }

  type Files = map<string, string>

  // A member of the archive, in archive order.
  datatype Entry = Entry(name: string, data: string)

  datatype WheelError =
    | MissingMember | RecordCoverage | RecordMembers | RecordHashesItself | RecordMismatch
    | PatchRefused(error: UnifiedDiff.PatchError) | UnexpectedVersion | UnexpectedMetadata

  const UPSTREAM_VERSION := "1.15.0"
  const PATCHED_VERSION := "1.15.0+corpuskit.1"
  const OLD_INFO := "accelerate-" + UPSTREAM_VERSION + ".dist-info"
  const DIST_INFO := "accelerate-" + PATCHED_VERSION + ".dist-info"
  const SOURCE := "accelerate/utils/modeling.py"
  const INIT := "accelerate/__init__.py"
  const VERSION_NOTICE := "# Modified by CorpusKit " + "to identify the CVE-2026-69112 " + "patched distribution."
  const OLD_VERSION := "__version__" + (" = \"" + UPSTREAM_VERSION + "\"")
  const NEW_VERSION := "__version__" + (" = \"" + PATCHED_VERSION + "\"\n" + VERSION_NOTICE)
  const OLD_METADATA := "\nVersion: " + UPSTREAM_VERSION + "\n"
  const NEW_METADATA := "\nVersion: " + PATCHED_VERSION + "\n"

  function RecordName(info: string): string { info + "/RECORD" }

  function MetadataName(info: string): string { info + "/METADATA" }

  // ---------- RECORD ----------

  // The row that a RECORD must have for a member.
  function Row(f: Formats, files: Files, record: string, name: string): seq<string>
    requires name in files
  {
    if name == record then [name, "", ""]
    else [name, "sha256=" + f.digest(files[name]), Decimal.Digits(|files[name]|)]
  }

  // RECORD lists every member exactly once, with its digest and size, and itself without them.
  ghost predicate RecordHolds(f: Formats, files: Files, record: string) {
    && record in files
    && var rows := f.readCsv(files[record]);
       && ThreeColumns(rows)
       && Covers(files, rows)
       && RowsMatch(f, files, record, rows)
  }

  predicate ThreeColumns(rows: seq<seq<string>>) { forall i :: 0 <= i < |rows| ==> |rows[i]| == 3 }

  ghost predicate Covers(files: Files, rows: seq<seq<string>>)
    requires ThreeColumns(rows)
  {
    && (forall i :: 0 <= i < |rows| ==> rows[i][0] in files)
    && (forall i, j :: 0 <= i < j < |rows| ==> rows[i][0] != rows[j][0])
    && (forall name :: name in files ==> exists i :: 0 <= i < |rows| && rows[i][0] == name)
  }

  ghost predicate RowsMatch(f: Formats, files: Files, record: string, rows: seq<seq<string>>)
    requires ThreeColumns(rows) && forall i :: 0 <= i < |rows| ==> rows[i][0] in files
  {
    forall i :: 0 <= i < |rows| ==> rows[i] == Row(f, files, record, rows[i][0])
  }

  function FirstColumn(rows: seq<seq<string>>): (r: seq<string>)
    requires ThreeColumns(rows)
    ensures |r| == |rows| && forall i :: 0 <= i < |rows| ==> r[i] == rows[i][0]
  {
    seq(|rows|, i requires 0 <= i < |rows| => rows[i][0])
  }

  function Names(rows: seq<seq<string>>): set<string>
    requires ThreeColumns(rows)
  {
    set name | name in FirstColumn(rows)
  }

  lemma CoversByCounting(files: Files, rows: seq<seq<string>>)
    requires ThreeColumns(rows)
    ensures Covers(files, rows) <==> |rows| == |files| && |Names(rows)| == |rows| && Names(rows) == files.Keys
  {
    hide FirstColumn;
    var column := FirstColumn(rows);
    MemberCount(column);
    CoversColumn(files, rows);
    if Names(rows) == files.Keys {
      assert forall i :: 0 <= i < |column| ==> column[i] in Names(rows);
    }
  }

  // Covering, said of the first column.
  lemma CoversColumn(files: Files, rows: seq<seq<string>>)
    requires ThreeColumns(rows)
    ensures Covers(files, rows) <==> DistinctList(FirstColumn(rows)) && Names(rows) == files.Keys
  {
    hide FirstColumn;
    var column := FirstColumn(rows);
    if Covers(files, rows) {
      forall name ensures name in Names(rows) <==> name in files {
        if name in files {
          var i :| 0 <= i < |rows| && rows[i][0] == name;
          assert column[i] == name;
        }
      }
    }
    if DistinctList(column) && Names(rows) == files.Keys {
      forall i | 0 <= i < |rows| ensures rows[i][0] in files {
        assert column[i] in Names(rows);
      }
      forall name | name in files ensures exists i :: 0 <= i < |rows| && rows[i][0] == name {
        var i :| 0 <= i < |column| && column[i] == name;
        assert rows[i][0] == name;
      }
    }
  }

  ghost predicate DistinctList(xs: seq<string>) { forall i, j :: 0 <= i < j < |xs| ==> xs[i] != xs[j] }

  lemma RowByColumns(f: Formats, files: Files, record: string, row: seq<string>)
    requires |row| == 3 && row[0] in files
    ensures row == Row(f, files, record, row[0])
            <==> if row[0] == record then row[1] == "" && row[2] == ""
                 else row[1] == "sha256=" + f.digest(files[row[0]]) && row[2] == Decimal.Digits(|files[row[0]]|)
  {
    assert row == [row[0], row[1], row[2]];
  }

  method VerifyRecord(f: Formats, files: Files, info: string) returns (r: Result<(), WheelError>)
    ensures r.Success? <==> RecordHolds(f, files, RecordName(info))
  {
    hide Row, Covers, Names;
    var record := RecordName(info);
    if record !in files {
      return Failure(MissingMember);
    }
    var rows := f.readCsv(files[record]);
    if !ThreeColumns(rows) {
      return Failure(RecordCoverage);
    }
    CoversByCounting(files, rows);
    if |rows| != |files| {
      return Failure(RecordCoverage);
    }
    if |Names(rows)| != |rows| || Names(rows) != files.Keys {
      return Failure(RecordMembers);
    }
    assert forall i :: 0 <= i < |rows| ==> rows[i][0] in files by { CoveredNames(files, rows); }
    for i := 0 to |rows|
      invariant forall j :: 0 <= j < i ==> rows[j] == Row(f, files, record, rows[j][0])
    {
      var name, digest, size := rows[i][0], rows[i][1], rows[i][2];
      RowByColumns(f, files, record, rows[i]);
      if name == record {
        if digest != "" || size != "" {
          return Failure(RecordHashesItself);
        }
      } else if digest != "sha256=" + f.digest(files[name]) || size != Decimal.Digits(|files[name]|) {
        return Failure(RecordMismatch);
      }
    }
    return Success(());
  }

  lemma CoveredNames(files: Files, rows: seq<seq<string>>)
    requires ThreeColumns(rows) && Covers(files, rows)
    ensures forall i :: 0 <= i < |rows| ==> rows[i][0] in files
  {
  }

  /** Two archives accepted with the same RECORD are the same archive. */
  lemma RecordDeterminesFiles(f: Formats, a: Files, b: Files, record: string)
    requires CollisionFree(f.digest)
    requires RecordHolds(f, a, record) && RecordHolds(f, b, record) && a[record] == b[record]
    ensures a == b
  {
    assert record in a && record in b;
    hide RecordHolds, Row;
    forall name ensures name in a <==> name in b {
      RecordedNames(f, a, record, name);
      RecordedNames(f, b, record, name);
    }
    forall name | name in a ensures a[name] == b[name] {
      if name != record {
        var i := RowFor(f, a, record, name);
        RowOf(f, b, record, name, i);
        SameDigest(f, a, b, record, name);
      }
    }
  }

  predicate IsRowOf(row: seq<string>, name: string) { row != [] && row[0] == name }

  lemma RecordedNames(f: Formats, files: Files, record: string, name: string)
    requires RecordHolds(f, files, record)
    ensures name in files <==> exists i :: 0 <= i < |f.readCsv(files[record])| && IsRowOf(f.readCsv(files[record])[i], name)
  {
    hide Row;
    var rows := f.readCsv(files[record]);
    if name in files {
      var i :| 0 <= i < |rows| && rows[i][0] == name;
      assert IsRowOf(rows[i], name);
    }
  }

  lemma RowFor(f: Formats, files: Files, record: string, name: string) returns (i: nat)
    requires RecordHolds(f, files, record) && name in files
    ensures i < |f.readCsv(files[record])| && f.readCsv(files[record])[i] == Row(f, files, record, name)
    ensures IsRowOf(f.readCsv(files[record])[i], name)
  {
    hide Row;
    var rows := f.readCsv(files[record]);
    i :| 0 <= i < |rows| && rows[i][0] == name;
  }

  lemma RowOf(f: Formats, files: Files, record: string, name: string, i: nat)
    requires RecordHolds(f, files, record) && i < |f.readCsv(files[record])| && IsRowOf(f.readCsv(files[record])[i], name)
    ensures name in files && f.readCsv(files[record])[i] == Row(f, files, record, name)
  {
    hide Row;
  }

  lemma SameDigest(f: Formats, a: Files, b: Files, record: string, name: string)
    requires name in a && name in b && name != record && Row(f, a, record, name) == Row(f, b, record, name)
    ensures f.digest(a[name]) == f.digest(b[name])
  {
    assert Row(f, a, record, name)[1] == "sha256=" + f.digest(a[name]);
    assert Row(f, b, record, name)[1] == "sha256=" + f.digest(b[name]);
    SameSuffix("sha256=", f.digest(a[name]), f.digest(b[name]));
  }

  lemma SameSuffix(prefix: string, x: string, y: string)
    requires prefix + x == prefix + y
    ensures x == y
  {
    assert (prefix + x)[|prefix|..] == x && (prefix + y)[|prefix|..] == y;
  }

  // ---------- building ----------

  function Rename(name: string): string { ReplaceAll(name, OLD_INFO + "/", DIST_INFO + "/") }

  // {name: data for name, data in ...}: a later entry wins.
  function FilesOf(entries: seq<Entry>): Files {
    if entries == [] then map[]
    else FilesOf(entries[..|entries| - 1])[entries[|entries| - 1].name := entries[|entries| - 1].data]
  }

  function Renamed(entries: seq<Entry>): Files {
    if entries == [] then map[]
    else Renamed(entries[..|entries| - 1])[Rename(entries[|entries| - 1].name) := entries[|entries| - 1].data]
  }

  // What the build requires of the upstream archive and the patch.
  ghost predicate Buildable(f: Formats, entries: seq<Entry>, patch: string) {
    var base := Renamed(entries);
    && RecordHolds(f, FilesOf(entries), RecordName(OLD_INFO))
    && SOURCE in base && UnifiedDiff.PatchText(base[SOURCE], patch).Success?
    && INIT in base && Count(base[INIT], OLD_VERSION) == 1
    && MetadataName(DIST_INFO) in base && Count(base[MetadataName(DIST_INFO)], OLD_METADATA) == 1
  }

  // The rebuilt members except RECORD.
  function Edited(f: Formats, entries: seq<Entry>, patched: string): (files: Files)
    requires INIT in Renamed(entries) && MetadataName(DIST_INFO) in Renamed(entries)
  {
    var base := Renamed(entries);
    base[SOURCE := patched]
        [INIT := ReplaceAll(base[INIT], OLD_VERSION, NEW_VERSION)]
        [MetadataName(DIST_INFO) := ReplaceAll(base[MetadataName(DIST_INFO)], OLD_METADATA, NEW_METADATA)]
  }

  function Rows(f: Formats, files: Files, record: string, names: seq<string>): (rows: seq<seq<string>>)
    requires forall i :: 0 <= i < |names| ==> names[i] in files
    ensures |rows| == |names| && forall i :: 0 <= i < |rows| ==> rows[i] == Row(f, files, record, names[i])
  {
    seq(|names|, i requires 0 <= i < |names| => Row(f, files, record, names[i]))
  }

  function Built(f: Formats, entries: seq<Entry>, patched: string): Files
    requires INIT in Renamed(entries) && MetadataName(DIST_INFO) in Renamed(entries)
  {
    var files := Edited(f, entries, patched);
    files[RecordName(DIST_INFO) := f.writeCsv(Rows(f, files, RecordName(DIST_INFO), Sorted(files.Keys)))]
  }

  method BuildWheel(f: Formats, entries: seq<Entry>, patch: string) returns (r: Result<Files, WheelError>)
    ensures r.Success? <==> Buildable(f, entries, patch)
    ensures r.Success? ==> r.value == Built(f, entries, UnifiedDiff.PatchText(Renamed(entries)[SOURCE], patch).value)
    ensures r.Success? ==> IsRebuilt(f, entries, patch, r.value)
  {
    hide IsRebuilt, Built, RecordHolds, UnifiedDiff.PatchText, ReplaceAll, Count, Rows, Sorted, Renamed, FilesOf,
      OLD_INFO, DIST_INFO, SOURCE, INIT, OLD_VERSION, NEW_VERSION, OLD_METADATA, NEW_METADATA, MetadataName, RecordName;
    DistinctMembers();
    var original, files := CollectFiles(entries);
    var verified := VerifyRecord(f, original, OLD_INFO);
    if verified.Failure? {
      return Failure(verified.error);
    }
    if SOURCE !in files {
      return Failure(MissingMember);
    }
    var patched := UnifiedDiff.ApplyPatchText(files[SOURCE], patch);
    if patched.Failure? {
      return Failure(PatchRefused(patched.error));
    }
    files := files[SOURCE := patched.value];
    if INIT !in files {
      return Failure(MissingMember);
    }
    if Count(files[INIT], OLD_VERSION) != 1 {
      return Failure(UnexpectedVersion);
    }
    files := files[INIT := ReplaceAll(files[INIT], OLD_VERSION, NEW_VERSION)];
    var metadata := MetadataName(DIST_INFO);
    if metadata !in files {
      return Failure(MissingMember);
    }
    if Count(files[metadata], OLD_METADATA) != 1 {
      return Failure(UnexpectedMetadata);
    }
    files := files[metadata := ReplaceAll(files[metadata], OLD_METADATA, NEW_METADATA)];
    var record := RecordName(DIST_INFO);
    var rows := RecordRows(f, files, record);
    BuiltIsWritten(f, entries, patched.value, files);
    BuildRebuilds(f, entries, patch);
    return Success(files[record := f.writeCsv(rows)]);
  }

  lemma BuiltIsWritten(f: Formats, entries: seq<Entry>, patched: string, files: Files)
    requires INIT in Renamed(entries) && MetadataName(DIST_INFO) in Renamed(entries) && files == Edited(f, entries, patched)
    ensures Built(f, entries, patched)
            == files[RecordName(DIST_INFO) := f.writeCsv(Rows(f, files, RecordName(DIST_INFO), Sorted(files.Keys)))]
  {
    hide Rows, Sorted, Edited, Renamed;
  }

  // The members under their archive names, and under their new names.
  method CollectFiles(entries: seq<Entry>) returns (original: Files, files: Files)
    ensures original == FilesOf(entries) && files == Renamed(entries)
  {
    hide Rename;
    original, files := map[], map[];
    for i := 0 to |entries|
      invariant original == FilesOf(entries[..i]) && files == Renamed(entries[..i])
    {
      assert entries[..i + 1][..i] == entries[..i];
      original := original[entries[i].name := entries[i].data];
      files := files[Rename(entries[i].name) := entries[i].data];
    }
    assert entries[..|entries|] == entries;
  }

  method RecordRows(f: Formats, files: Files, record: string) returns (rows: seq<seq<string>>)
    ensures rows == Rows(f, files, record, Sorted(files.Keys))
  {
    hide Row, Sorted;
    var names := Sorted(files.Keys);
    rows := [];
    for i := 0 to |names|
      invariant rows == Rows(f, files, record, names[..i])
    {
      rows := rows + [Row(f, files, record, names[i])];
      assert names[..i + 1] == names[..i] + [names[i]];
    }
    assert names[..|names|] == names;
  }

  // The four rewritten members are different members.
  lemma DistinctMembers()
    ensures SOURCE != INIT && SOURCE != MetadataName(DIST_INFO) && INIT != MetadataName(DIST_INFO)
    ensures RecordName(DIST_INFO) != SOURCE && RecordName(DIST_INFO) != INIT
    ensures RecordName(DIST_INFO) != MetadataName(DIST_INFO)
    ensures OLD_VERSION != "" && OLD_METADATA != "" && OLD_INFO + "/" != ""
  {
    assert |SOURCE| == 28 && |INIT| == 22 && |MetadataName(DIST_INFO)| == 48 && |RecordName(DIST_INFO)| == 46;
  }

  lemma {:induction false} RenamedMembers(entries: seq<Entry>)
    ensures Renamed(entries).Keys == set e | e in entries :: Rename(e.name)
  {
    hide Rename;
    if entries != [] {
      var n := |entries| - 1;
      RenamedMembers(entries[..n]);
      assert entries == entries[..n] + [entries[n]];
    }
  }

  // The RECORD of the upstream archive becomes the RECORD of the rebuilt one.
  lemma RecordIsRenamed()
    ensures Rename(RecordName(OLD_INFO)) == RecordName(DIST_INFO)
  {
    var name, pat := RecordName(OLD_INFO), OLD_INFO + "/";
    assert name[0..|pat|] == pat;
    assert OccursAt(name, pat, 0);
    assert name[|pat|..] == "RECORD";
    assert |pat| == 28;
    assert IndexOf("RECORD", pat).None?;
    assert IndexOf(name, pat) == Some(0);
    assert ReplaceAll("RECORD", pat, DIST_INFO + "/") == "RECORD";
    assert ReplaceAll(name, pat, DIST_INFO + "/") == name[..0] + (DIST_INFO + "/") + "RECORD";
    assert name[..0] + (DIST_INFO + "/") + "RECORD" == RecordName(DIST_INFO);
  }

  /** The rebuilt archive has the upstream members, up to the new dist-info name, and no others. */
  lemma BuildKeepsMembers(f: Formats, entries: seq<Entry>, patch: string, patched: string)
    requires Buildable(f, entries, patch)
    ensures Built(f, entries, patched).Keys == set e | e in entries :: Rename(e.name)
  {
    hide Rename, Covers, RowsMatch, Rows, Row, RecordName, MetadataName, OLD_INFO, DIST_INFO, SOURCE, INIT, ReplaceAll, Count,
      UnifiedDiff.PatchText;
    RenamedMembers(entries);
    RecordIsRenamed();
    FilesHaveEntries(entries, RecordName(OLD_INFO));
  }

  lemma {:induction false} FilesHaveEntries(entries: seq<Entry>, name: string)
    ensures name in FilesOf(entries) ==> exists e :: e in entries && e.name == name
  {
    if entries != [] {
      FilesHaveEntries(entries[..|entries| - 1], name);
      if name in FilesOf(entries) && name == entries[|entries| - 1].name {
        assert entries[|entries| - 1] in entries;
      }
    }
  }

  lemma RowsCover(files: Files, rows: seq<seq<string>>, names: seq<string>)
    requires ThreeColumns(rows) && |rows| == |names| && forall i :: 0 <= i < |rows| ==> rows[i][0] == names[i]
    requires Ascending(names) && forall name :: name in names <==> name in files
    ensures Covers(files, rows)
  {
    AscendingDistinct(names);
    forall i | 0 <= i < |rows| ensures rows[i][0] in files {
      assert names[i] in names;
    }
    forall name | name in files ensures exists i :: 0 <= i < |rows| && rows[i][0] == name {
      assert name in names;
      var i :| 0 <= i < |names| && names[i] == name;
      assert rows[i][0] == name;
    }
  }

  // A RECORD written from the members holds for them.
  lemma WrittenRecordHolds(f: Formats, files: Files, record: string)
    requires CsvRoundTrips(f) && record in files
    ensures RecordHolds(f, files[record := f.writeCsv(Rows(f, files, record, Sorted(files.Keys)))], record)
  {
    hide Sorted, Covers, Ascending, Rows, Row;
    var names := Sorted(files.Keys);
    assert forall i :: 0 <= i < |names| ==> names[i] in names;
    var rows := Rows(f, files, record, names);
    var built := files[record := f.writeCsv(rows)];
    assert f.readCsv(built[record]) == rows;
    WrittenRows(f, files, record, names);
    RowsCover(built, rows, names);
    forall i | 0 <= i < |rows| ensures rows[i] == Row(f, built, record, rows[i][0]) {
      assert names[i] in names;
      OtherRowsStay(f, files, built, record, names[i]);
    }
  }

  lemma WrittenRows(f: Formats, files: Files, record: string, names: seq<string>)
    requires forall i :: 0 <= i < |names| ==> names[i] in files
    ensures forall i :: 0 <= i < |names| ==> |Rows(f, files, record, names)[i]| == 3 && Rows(f, files, record, names)[i][0] == names[i]
  {
  }

  lemma OtherRowsStay(f: Formats, files: Files, built: Files, record: string, name: string)
    requires name in files && name in built && (name != record ==> built[name] == files[name])
    ensures Row(f, built, record, name) == Row(f, files, record, name)
  {
  }

  /** Whatever the upstream archive, the archive the build produces passes verification. */
  lemma BuildVerifies(f: Formats, entries: seq<Entry>, patch: string, patched: string)
    requires CsvRoundTrips(f) && Buildable(f, entries, patch)
    ensures RecordHolds(f, Built(f, entries, patched), RecordName(DIST_INFO))
  {
    hide Rename, RecordName, MetadataName, Rows, Sorted, Covers, RowsMatch, CsvRoundTrips, OLD_INFO, DIST_INFO, SOURCE, INIT,
      ReplaceAll, Count, UnifiedDiff.PatchText, FilesOf, Renamed;
    var files := Edited(f, entries, patched);
    RenamedMembers(entries);
    RecordIsRenamed();
    FilesHaveEntries(entries, RecordName(OLD_INFO));
    WrittenRecordHolds(f, files, RecordName(DIST_INFO));
  }

  /** Only the loader, the version, the metadata and the RECORD differ from upstream. */
  lemma BuildKeepsContents(f: Formats, entries: seq<Entry>, patched: string, e: Entry)
    requires INIT in Renamed(entries) && MetadataName(DIST_INFO) in Renamed(entries)
    requires e in entries && forall other :: other in entries && Rename(other.name) == Rename(e.name) ==> other == e
    requires Rename(e.name) !in {SOURCE, INIT, MetadataName(DIST_INFO), RecordName(DIST_INFO)}
    ensures Rename(e.name) in Built(f, entries, patched) && Built(f, entries, patched)[Rename(e.name)] == e.data
  {
    hide Rename, MetadataName, RecordName, Rows, Sorted;
    RenamedOnce(entries, e);
  }

  lemma {:induction false} RenamedOnce(entries: seq<Entry>, e: Entry)
    requires e in entries && forall other :: other in entries && Rename(other.name) == Rename(e.name) ==> other == e
    ensures Rename(e.name) in Renamed(entries) && Renamed(entries)[Rename(e.name)] == e.data
  {
    hide Rename;
    var n := |entries| - 1;
    assert entries == entries[..n] + [entries[n]];
    assert entries[n] in entries;
    if entries[n] != e {
      RenamedOnce(entries[..n], e);
    }
  }

  // ---------- checking the build against upstream ----------

  // Undoing the version edits of one member.
  function Undone(name: string, content: string): string {
    if name == INIT then ReplaceAll(content, NEW_VERSION, OLD_VERSION)
    else if name == MetadataName(DIST_INFO) then ReplaceAll(content, NEW_METADATA, OLD_METADATA)
    else content
  }

  // Every member but the loader and RECORD is, with the edits undone, the upstream member.
  ghost predicate UndoChecks(f: Formats, files: Files, digests: map<string, string>) {
    && files.Keys == digests.Keys
    && forall name :: name in digests && name !in {SOURCE, RecordName(DIST_INFO)} ==> f.digest(Undone(name, files[name])) == digests[name]
  }

  method VerifyUndone(f: Formats, files: Files, digests: map<string, string>) returns (ok: bool)
    ensures ok <==> UndoChecks(f, files, digests)
  {
    hide Undone, SOURCE, RecordName, DIST_INFO;
    if files.Keys != digests.Keys {
      return false;
    }
    var left := digests.Keys;
    while left != {}
      invariant left <= digests.Keys
      invariant forall name :: name in digests.Keys - left && name !in {SOURCE, RecordName(DIST_INFO)} ==>
                  f.digest(Undone(name, files[name])) == digests[name]
    {
      var name :| name in left;
      left := left - {name};
      if name == SOURCE || name == RecordName(DIST_INFO) {
        continue;
      }
      if f.digest(Undone(name, files[name])) != digests[name] {
        return false;
      }
    }
    return true;
  }

  // The digests recorded for the upstream members, under their new names.
  function Digests(f: Formats, files: Files): map<string, string> { map name | name in files :: f.digest(files[name]) }

  // The new version texts are nowhere in the upstream members but where the build puts them.
  ghost predicate ClearUpstream(entries: seq<Entry>)
    requires INIT in Renamed(entries) && Count(Renamed(entries)[INIT], OLD_VERSION) == 1
    requires MetadataName(DIST_INFO) in Renamed(entries) && Count(Renamed(entries)[MetadataName(DIST_INFO)], OLD_METADATA) == 1
  {
    && ClearAround(Renamed(entries)[INIT], OLD_VERSION, NEW_VERSION, 0)
    && ClearAround(Renamed(entries)[MetadataName(DIST_INFO)], OLD_METADATA, NEW_METADATA, 1)
  }

  // The members that the edits touch.
  lemma EditedMembers(f: Formats, entries: seq<Entry>, patched: string)
    requires INIT in Renamed(entries) && MetadataName(DIST_INFO) in Renamed(entries)
    ensures var base, edited, metadata := Renamed(entries), Edited(f, entries, patched), MetadataName(DIST_INFO);
            && edited.Keys == base.Keys + {SOURCE} && edited[SOURCE] == patched
            && edited[INIT] == ReplaceAll(base[INIT], OLD_VERSION, NEW_VERSION)
            && edited[metadata] == ReplaceAll(base[metadata], OLD_METADATA, NEW_METADATA)
            && forall name :: name in base && name !in {SOURCE, INIT, metadata} ==> edited[name] == base[name]
  {
    hide ReplaceAll, Count, RecordName, MetadataName, DIST_INFO, SOURCE, INIT, OLD_VERSION, NEW_VERSION, OLD_METADATA, NEW_METADATA, Renamed;
    DistinctMembers();
  }

  // The built members beside the upstream ones.
  lemma BuiltMembers(f: Formats, entries: seq<Entry>, patch: string, patched: string)
    requires Buildable(f, entries, patch)
    ensures var base, built, metadata := Renamed(entries), Built(f, entries, patched), MetadataName(DIST_INFO);
            && built.Keys == base.Keys && INIT in base && metadata in base && INIT != metadata
            && {INIT, metadata} !! {SOURCE, RecordName(DIST_INFO)} && SOURCE in base && built[SOURCE] == patched
            && built[INIT] == ReplaceAll(base[INIT], OLD_VERSION, NEW_VERSION)
            && built[metadata] == ReplaceAll(base[metadata], OLD_METADATA, NEW_METADATA)
            && forall name :: name in base && name !in {SOURCE, INIT, metadata, RecordName(DIST_INFO)} ==> built[name] == base[name]
  {
    hide Buildable, Built, Edited, Renamed, ReplaceAll, RecordName, MetadataName, DIST_INFO, SOURCE, INIT, OLD_VERSION, NEW_VERSION,
      OLD_METADATA, NEW_METADATA;
    DistinctMembers();
    BuildableMembers(f, entries, patch);
    EditedMembers(f, entries, patched);
    BuiltIsEdited(f, entries, patched);
  }

  lemma BuildableMembers(f: Formats, entries: seq<Entry>, patch: string)
    requires Buildable(f, entries, patch)
    ensures {SOURCE, INIT, MetadataName(DIST_INFO), RecordName(DIST_INFO)} <= Renamed(entries).Keys
  {
    hide RecordHolds, UnifiedDiff.PatchText, Count, Renamed, RecordName, MetadataName, DIST_INFO, SOURCE, INIT;
    RecordInBase(f, entries, patch);
  }

  lemma BuiltIsEdited(f: Formats, entries: seq<Entry>, patched: string)
    requires INIT in Renamed(entries) && MetadataName(DIST_INFO) in Renamed(entries)
    ensures RecordName(DIST_INFO) in Built(f, entries, patched)
    ensures Built(f, entries, patched)
            == Edited(f, entries, patched)[RecordName(DIST_INFO) := Built(f, entries, patched)[RecordName(DIST_INFO)]]
  {
    hide Rows, Sorted, Edited, Renamed, RecordName, MetadataName, DIST_INFO, INIT;
  }

  // ---------- what the build does to every member ----------

  // The member that has this name once the dist-info directory is renamed; a later one wins.
  predicate IsUpstream(entries: seq<Entry>, i: nat, name: string) {
    i < |entries| && IsRenamed(entries[i], name) && forall j :: i < j < |entries| ==> !IsRenamed(entries[j], name)
  }

  predicate IsRenamed(e: Entry, name: string) {
    ReplaceAll(e.name, "accelerate-1.15.0.dist-info/", "accelerate-1.15.0+corpuskit.1.dist-info/") == name
  }

  // The one text is the other with this part of it rewritten.
  predicate Rewrites(before: string, from: string, to: string, after: string, upstream: string, built: string) {
    upstream == before + from + after && built == before + to + after
  }

  // From the upstream bytes of a member to those in the rebuilt archive.
  ghost predicate IsRebuiltMember(name: string, upstream: string, patch: string, built: string) {
    if name == "accelerate/utils/modeling.py" then UnifiedDiff.PatchText(upstream, patch) == Success(built)
    else if name == "accelerate/__init__.py" then
      exists before, after ::
        Rewrites(before, "__version__ = \"1.15.0\"",
                 "__version__ = \"" + "1.15.0+corpuskit.1" + "\"\n"
                 + ("# Modified by CorpusKit " + "to identify the CVE-2026-69112 " + "patched distribution."),
                 after, upstream, built)
    else if name == "accelerate-1.15.0+corpuskit.1.dist-info/METADATA" then
      exists before, after :: Rewrites(before, "\nVersion: 1.15.0\n", "\nVersion: 1.15.0+corpuskit.1\n", after, upstream, built)
    else name != "accelerate-1.15.0+corpuskit.1.dist-info/RECORD" ==> built == upstream
  }

  // One row for every member, in name order: its digest and size, and for RECORD itself neither.
  ghost predicate IsRecord(f: Formats, files: Files, rows: seq<seq<string>>) {
    && |rows| == |files| && (forall i :: 0 <= i < |rows| ==> |rows[i]| == 3 && rows[i][0] in files)
    && (forall i, j :: 0 <= i < j < |rows| ==> Less(rows[i][0], rows[j][0]))
    && forall i :: 0 <= i < |rows| ==>
         if rows[i][0] == "accelerate-1.15.0+corpuskit.1.dist-info/RECORD" then rows[i][1] == rows[i][2] == ""
         else rows[i][1] == "sha256=" + f.digest(files[rows[i][0]]) && rows[i][2] == Decimal.Digits(|files[rows[i][0]]|)
  }

  ghost predicate IsRebuilt(f: Formats, entries: seq<Entry>, patch: string, files: Files) {
    && (forall i: nat, name :: IsUpstream(entries, i, name) ==>
          name in files && IsRebuiltMember(name, entries[i].data, patch, files[name]))
    && "accelerate-1.15.0+corpuskit.1.dist-info/RECORD" in files
    && exists rows :: files["accelerate-1.15.0+corpuskit.1.dist-info/RECORD"] == f.writeCsv(rows)
                      && IsRecord(f, files, rows)
  }

  lemma LiteralFolders()
    ensures OLD_INFO + "/" == "accelerate-1.15.0.dist-info/" && DIST_INFO + "/" == "accelerate-1.15.0+corpuskit.1.dist-info/"
  {
  }

  lemma LiteralMembers()
    ensures SOURCE == "accelerate/utils/modeling.py" && INIT == "accelerate/__init__.py"
    ensures MetadataName(DIST_INFO) == "accelerate-1.15.0+corpuskit.1.dist-info/METADATA"
  {
    LiteralMetadataName();
    hide MetadataName, DIST_INFO;
  }

  lemma LiteralMetadataName()
    ensures MetadataName(DIST_INFO) == "accelerate-1.15.0+corpuskit.1.dist-info/METADATA"
  {
  }

  lemma LiteralRecord()
    ensures RecordName(DIST_INFO) == "accelerate-1.15.0+corpuskit.1.dist-info/RECORD"
  {
  }

  lemma LiteralMetadata()
    ensures OLD_METADATA == "\nVersion: 1.15.0\n" && NEW_METADATA == "\nVersion: 1.15.0+corpuskit.1\n"
  {
  }

  lemma LiteralOldVersion()
    ensures OLD_VERSION == "__version__ = \"1.15.0\""
  {
  }

  lemma LiteralNewVersion()
    ensures NEW_VERSION == "__version__ = \"" + "1.15.0+corpuskit.1" + "\"\n"
                           + ("# Modified by CorpusKit " + "to identify the CVE-2026-69112 " + "patched distribution.")
  {
    assert "__version__" + " = \"" == "__version__ = \"";
    Regrouped("__version__", " = \"", PATCHED_VERSION, "\"\n", VERSION_NOTICE);
  }

  lemma Regrouped(a: string, b: string, c: string, d: string, e: string)
    ensures a + (b + c + (d + e)) == (a + b) + c + d + e && b + c + (d + e) == b + c + d + e
  {
  }

  lemma {:induction false} LastRenamed(entries: seq<Entry>, i: nat, name: string)
    requires IsUpstream(entries, i, name)
    ensures name in Renamed(entries) && Renamed(entries)[name] == entries[i].data
  {
    LiteralFolders();
    hide ReplaceAll, OLD_INFO, DIST_INFO;
    var n := |entries| - 1;
    if i < n {
      LastRenamed(entries[..n], i, name);
      assert !IsRenamed(entries[n], name);
    }
  }

  // A single occurrence is rewritten with the text around it kept.
  lemma OnceRewrites(upstream: string, from: string, to: string)
    requires from != "" && Count(upstream, from) == 1
    ensures exists before, after :: Rewrites(before, from, to, after, upstream, ReplaceAll(upstream, from, to))
  {
    var p := ReplaceOnce(upstream, from, to);
    assert Rewrites(upstream[..p], from, to, upstream[p + |from|..], upstream, ReplaceAll(upstream, from, to));
  }

  lemma MemberRebuilt(f: Formats, entries: seq<Entry>, patch: string, patched: string, i: nat, name: string)
    requires Buildable(f, entries, patch) && UnifiedDiff.PatchText(Renamed(entries)[SOURCE], patch) == Success(patched)
    requires IsUpstream(entries, i, name)
    ensures name in Built(f, entries, patched) && IsRebuiltMember(name, entries[i].data, patch, Built(f, entries, patched)[name])
  {
    BuiltMembers(f, entries, patch, patched);
    LastRenamed(entries, i, name);
    LiteralMembers();
    LiteralRecord();
    hide Buildable, Built, Renamed, IsUpstream, IsRebuiltMember, UnifiedDiff.PatchText, ReplaceAll, DIST_INFO, SOURCE, INIT, OLD_VERSION,
      NEW_VERSION, OLD_METADATA, NEW_METADATA, MetadataName, RecordName;
    var upstream := entries[i].data;
    if name == SOURCE {
      SourceRebuilt(upstream, patch, patched);
    } else if name == INIT {
      VersionRebuilt(f, entries, patch);
    } else if name == MetadataName(DIST_INFO) {
      MetadataRebuilt(f, entries, patch);
    } else {
      OthersKept(name, upstream, patch, Built(f, entries, patched)[name]);
    }
  }

  lemma SourceRebuilt(upstream: string, patch: string, built: string)
    ensures IsRebuiltMember("accelerate/utils/modeling.py", upstream, patch, built) <==> UnifiedDiff.PatchText(upstream, patch) == Success(built)
  {
    hide UnifiedDiff.PatchText;
  }

  lemma VersionRebuilt(f: Formats, entries: seq<Entry>, patch: string)
    requires Buildable(f, entries, patch)
    ensures INIT in Renamed(entries)
    ensures IsRebuiltMember("accelerate/__init__.py", Renamed(entries)[INIT], patch, ReplaceAll(Renamed(entries)[INIT], OLD_VERSION, NEW_VERSION))
  {
    hide RecordHolds, Renamed, FilesOf, ReplaceAll, Count, UnifiedDiff.PatchText, Rewrites, SOURCE, INIT, OLD_VERSION, NEW_VERSION, OLD_METADATA,
      MetadataName, RecordName;
    LiteralOldVersion();
    LiteralNewVersion();
    OnceRewrites(Renamed(entries)[INIT], OLD_VERSION, NEW_VERSION);
  }

  lemma MetadataRebuilt(f: Formats, entries: seq<Entry>, patch: string)
    requires Buildable(f, entries, patch)
    ensures MetadataName(DIST_INFO) in Renamed(entries)
    ensures var upstream := Renamed(entries)[MetadataName(DIST_INFO)];
            IsRebuiltMember("accelerate-1.15.0+corpuskit.1.dist-info/METADATA", upstream, patch, ReplaceAll(upstream, OLD_METADATA, NEW_METADATA))
  {
    hide RecordHolds, Renamed, FilesOf, ReplaceAll, Count, UnifiedDiff.PatchText, Rewrites, SOURCE, INIT, OLD_VERSION, OLD_METADATA, NEW_METADATA,
      MetadataName, RecordName;
    LiteralMetadata();
    OnceRewrites(Renamed(entries)[MetadataName(DIST_INFO)], OLD_METADATA, NEW_METADATA);
  }

  lemma OthersKept(name: string, upstream: string, patch: string, built: string)
    requires name != "accelerate/utils/modeling.py" && name != "accelerate/__init__.py"
    requires name != "accelerate-1.15.0+corpuskit.1.dist-info/METADATA"
    ensures IsRebuiltMember(name, upstream, patch, built) <==> (name != "accelerate-1.15.0+corpuskit.1.dist-info/RECORD" ==> built == upstream)
  {
    hide UnifiedDiff.PatchText, Rewrites;
  }

  lemma RowIs(f: Formats, files: Files, name: string)
    requires name in files
    ensures var row := Row(f, files, RecordName(DIST_INFO), name);
            && |row| == 3 && row[0] == name
            && if name == "accelerate-1.15.0+corpuskit.1.dist-info/RECORD" then row[1] == row[2] == ""
               else row[1] == "sha256=" + f.digest(files[name]) && row[2] == Decimal.Digits(|files[name]|)
  {
    LiteralRecord();
    hide RecordName, DIST_INFO;
  }

  lemma WrittenIsRecord(f: Formats, files: Files, built: Files, names: seq<string>)
    requires RecordName(DIST_INFO) in files && names == Sorted(files.Keys) && built.Keys == files.Keys
    requires forall name :: name in files && name != RecordName(DIST_INFO) ==> built[name] == files[name]
    ensures forall i :: 0 <= i < |names| ==> names[i] in files
    ensures IsRecord(f, built, Rows(f, files, RecordName(DIST_INFO), names))
  {
    assert forall i :: 0 <= i < |names| ==> names[i] in names;
    hide Sorted, RecordName, DIST_INFO, Row, IsRecord;
    var rows := Rows(f, files, RecordName(DIST_INFO), names);
    forall i | 0 <= i < |rows| ensures rows[i] == Row(f, built, RecordName(DIST_INFO), names[i]) {
      SameRow(f, files, built, RecordName(DIST_INFO), names[i]);
    }
    RowsAreRecord(f, built, names, rows);
  }

  lemma SameRow(f: Formats, files: Files, built: Files, record: string, name: string)
    requires name in files && name in built && (name != record ==> built[name] == files[name])
    ensures Row(f, built, record, name) == Row(f, files, record, name)
  {
  }

  lemma RowsAreRecord(f: Formats, built: Files, names: seq<string>, rows: seq<seq<string>>)
    requires Ascending(names) && |names| == |built| && |rows| == |names| && forall i :: 0 <= i < |names| ==> names[i] in built
    requires forall i :: 0 <= i < |rows| ==> rows[i] == Row(f, built, RecordName(DIST_INFO), names[i])
    ensures IsRecord(f, built, rows)
  {
    hide Row, RecordName, DIST_INFO, Less;
    forall i | 0 <= i < |rows| ensures |rows[i]| == 3 && rows[i][0] == names[i] {
      RowIs(f, built, names[i]);
    }
    forall i | 0 <= i < |rows|
      ensures if rows[i][0] == "accelerate-1.15.0+corpuskit.1.dist-info/RECORD" then rows[i][1] == rows[i][2] == ""
              else rows[i][1] == "sha256=" + f.digest(built[rows[i][0]]) && rows[i][2] == Decimal.Digits(|built[rows[i][0]]|)
    {
      RowIs(f, built, names[i]);
    }
  }

  lemma BuildRebuilds(f: Formats, entries: seq<Entry>, patch: string)
    requires Buildable(f, entries, patch)
    ensures IsRebuilt(f, entries, patch, Built(f, entries, UnifiedDiff.PatchText(Renamed(entries)[SOURCE], patch).value))
  {
    hide RecordHolds, Renamed, FilesOf, ReplaceAll, Count, UnifiedDiff.PatchText, IsRebuiltMember, IsRecord, Edited,
      DIST_INFO, SOURCE, INIT, OLD_VERSION, OLD_METADATA, MetadataName, RecordName;
    var patched := UnifiedDiff.PatchText(Renamed(entries)[SOURCE], patch).value;
    var built := Built(f, entries, patched);
    forall i: nat, name | IsUpstream(entries, i, name)
      ensures name in built && IsRebuiltMember(name, entries[i].data, patch, built[name])
    {
      MemberRebuilt(f, entries, patch, patched, i, name);
    }
    var rows := RecordRebuilt(f, entries, patch, patched);
    hide Built;
    LiteralRecord();
  }

  lemma WrittenRecord(f: Formats, files: Files, built: Files) returns (rows: seq<seq<string>>)
    requires RecordName(DIST_INFO) in files
    requires built == files[RecordName(DIST_INFO) := f.writeCsv(Rows(f, files, RecordName(DIST_INFO), Sorted(files.Keys)))]
    ensures built[RecordName(DIST_INFO)] == f.writeCsv(rows) && IsRecord(f, built, rows)
  {
    hide IsRecord, DIST_INFO, RecordName, Rows, Sorted;
    var names := Sorted(files.Keys);
    WrittenIsRecord(f, files, built, names);
    rows := Rows(f, files, RecordName(DIST_INFO), names);
  }

  lemma RecordRebuilt(f: Formats, entries: seq<Entry>, patch: string, patched: string) returns (rows: seq<seq<string>>)
    requires Buildable(f, entries, patch)
    ensures RecordName(DIST_INFO) in Built(f, entries, patched)
    ensures Built(f, entries, patched)[RecordName(DIST_INFO)] == f.writeCsv(rows) && IsRecord(f, Built(f, entries, patched), rows)
  {
    BuildableMembers(f, entries, patch);
    EditedMembers(f, entries, patched);
    hide Buildable, Renamed, IsRecord, Edited, DIST_INFO, SOURCE, INIT, MetadataName, RecordName, Rows, Sorted, ReplaceAll;
    var files := Edited(f, entries, patched);
    BuiltIsWritten(f, entries, patched, files);
    rows := WrittenRecord(f, files, Built(f, entries, patched));
  }

  /** What is built from an upstream archive passes the comparison with it exactly when that archive nowhere else has the new version texts. */
  lemma BuildIsUndone(f: Formats, entries: seq<Entry>, patch: string, patched: string)
    requires CollisionFree(f.digest) && Buildable(f, entries, patch)
    ensures UndoChecks(f, Built(f, entries, patched), Digests(f, Renamed(entries))) <==> ClearUpstream(entries)
  {
    hide RecordHolds, Built, ReplaceAll, Count, ClearAround, RecordName, MetadataName, DIST_INFO, OLD_INFO, SOURCE, INIT,
      OLD_VERSION, NEW_VERSION, OLD_METADATA, NEW_METADATA, UnifiedDiff.PatchText, Renamed, FilesOf;
    var base, built, metadata := Renamed(entries), Built(f, entries, patched), MetadataName(DIST_INFO);
    BuiltMembers(f, entries, patch, patched);
    VersionUndone(base[INIT]);
    MetadataUndone(base[metadata]);
    forall name | name in base
      ensures f.digest(Undone(name, built[name])) == Digests(f, base)[name] <==> Undone(name, built[name]) == base[name]
    {
    }
  }

  lemma RecordInBase(f: Formats, entries: seq<Entry>, patch: string)
    requires Buildable(f, entries, patch)
    ensures RecordName(DIST_INFO) in Renamed(entries)
  {
    hide Rename, Covers, RowsMatch, Row, RecordName, DIST_INFO, OLD_INFO, ReplaceAll, Count, UnifiedDiff.PatchText;
    RenamedMembers(entries);
    RecordIsRenamed();
    FilesHaveEntries(entries, RecordName(OLD_INFO));
  }

  /** Undoing the version edit restores `__init__` exactly when the new version text was nowhere else in it. */
  lemma VersionUndone(upstream: string)
    requires Count(upstream, OLD_VERSION) == 1
    ensures Undone(INIT, ReplaceAll(upstream, OLD_VERSION, NEW_VERSION)) == upstream <==> ClearAround(upstream, OLD_VERSION, NEW_VERSION, 0)
  {
    VersionTextBorderFree();
    hide BordersWithin, Count, ReplaceAll, ClearAround;
    assert |OLD_VERSION| == 22 && |NEW_VERSION| == 111;
    UndoRestores(upstream, OLD_VERSION, NEW_VERSION, 0);
  }

  /** The same for METADATA, whose version line shares its line breaks with the lines around it. */
  lemma MetadataUndone(upstream: string)
    requires Count(upstream, OLD_METADATA) == 1
    ensures Undone(MetadataName(DIST_INFO), ReplaceAll(upstream, OLD_METADATA, NEW_METADATA)) == upstream
            <==> ClearAround(upstream, OLD_METADATA, NEW_METADATA, 1)
  {
    DistinctMembers();
    MetadataTextBorders();
    hide BordersWithin, Untangled, Count, ReplaceAll, ClearAround, MetadataName;
    UndoRestores(upstream, OLD_METADATA, NEW_METADATA, 1);
  }

  lemma MetadataTextBorders()
    ensures BordersWithin(NEW_METADATA, 1) && Untangled(OLD_METADATA, NEW_METADATA, 1)
    ensures |OLD_METADATA| != |NEW_METADATA| && |NEW_METADATA| > 1 && OLD_METADATA != "" && OLD_METADATA[..1] == NEW_METADATA[..1]
  {
    var old_, new_ := "Version: " + UPSTREAM_VERSION, "Version: " + PATCHED_VERSION;
    assert OLD_METADATA == "\n" + old_ + "\n" && NEW_METADATA == "\n" + new_ + "\n";
    assert |old_| == 15 && |new_| > 16 && new_[15] == '+' && Lacks(new_, '\n');
    hide OLD_METADATA, NEW_METADATA, UPSTREAM_VERSION, PATCHED_VERSION, Lacks;
    LineBorders(new_);
    LinesUntangled(old_, new_);
  }

  // A line between two line breaks shares with itself at most one of them.
  lemma LineBorders(inside: string)
    requires Lacks(inside, '\n')
    ensures BordersWithin("\n" + inside + "\n", 1)
  {
    var s := "\n" + inside + "\n";
    forall k | 0 < k < |s| - 1 ensures s[k..] != s[..|s| - k] {
      assert s[k..][0] == s[k] == inside[k - 1] && s[..|s| - k][0] == '\n';
    }
  }

  lemma LinesUntangled(before: string, after: string)
    requires |before| < |after| && after[|before|] != '\n'
    ensures Untangled("\n" + before + "\n", "\n" + after + "\n", 1)
  {
    var x, y := "\n" + before + "\n", "\n" + after + "\n";
    var k := |before| + 1;
    assert x[k] == '\n' && y[k] == after[|before|];
    assert (y[..|y| - 1] + x)[k] == y[k] && (x + y[1..])[k] == x[k];
  }

  predicate Lacks(s: string, c: char) { forall k :: 0 <= k < |s| ==> s[k] != c }

  // Apart from the first eleven characters there is no underscore to start a border.
  lemma StartsOnlyOnce(s: string, rest: string)
    requires s == "__version__" + rest && Lacks(rest, '_') && rest != "" && rest[0] == ' '
    ensures BordersWithin(s, 0)
  {
    forall k | 0 < k < |s| ensures s[k..] != s[..|s| - k] {
      assert s[k..][0] == s[k] && s[..|s| - k][0] == '_';
      if k >= 11 {
        assert s[k] == rest[k - 11];
      } else {
        assert s[k..][1] == s[k + 1] && s[..|s| - k][1] == '_';
        if k == 9 {
          assert s[k..][2] == s[11] == ' ' && s[..|s| - k][2] == 'v';
        }
      }
    }
  }

  lemma Joined(a: string, b: string, c: char)
    requires Lacks(a, c) && Lacks(b, c)
    ensures Lacks(a + b, c)
  {
  }

  /** The new version text has no border, so its occurrences never overlap. */
  lemma VersionTextBorderFree()
    ensures BordersWithin(NEW_VERSION, 0)
  {
    var open, close := " = \"", "\"\n";
    Joined("# Modified by CorpusKit ", "to identify the CVE-2026-69112 ", '_');
    Joined("# Modified by CorpusKit " + "to identify the CVE-2026-69112 ", "patched distribution.", '_');
    Joined(open, PATCHED_VERSION, '_');
    Joined(open + PATCHED_VERSION, close, '_');
    Joined(open + PATCHED_VERSION + close, VERSION_NOTICE, '_');
    hide Lacks, BordersWithin;
    StartsOnlyOnce(NEW_VERSION, open + PATCHED_VERSION + close + VERSION_NOTICE);
  }
}
