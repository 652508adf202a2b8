/** The manifest of a backup bundle: its canonical text, and how that text is read back. */
module BackupManifest {
  import opened Wrappers
  import opened Decimal
  import opened Strings
  import opened Sorting
  import opened Json
  import opened JsonParser
  import opened CanonicalJson
  import opened CanonicalText

  const MAX_ARCHIVE_SIZE := 0x7fff_ffff_ffff_ffff
  const MAX_TOC_ENTRIES := 50_000_000
  const MAX_MANIFEST_BYTES := 64 * 1024

  // Versions as the tools print them, the time as the manifest prints it.
  datatype Manifest = Manifest(bundleId: string, createdAt: string, archiveSha256: string, archiveSize: nat, tocEntries: nat,
                               dump: string, restore: string)

  // ---------- what a manifest may say ----------

  // YYYYMMDDTHHMMSSffffffZ
  predicate IsStamp(s: string) { |s| == 22 && AllDigits(s[..8]) && s[8] == 'T' && AllDigits(s[9..21]) && s[21] == 'Z' }

  function BundleId(stamp: string, sha256: string, nonce: string): string
    requires |sha256| >= 12 && |nonce| >= 12
  {
    "ckpg_" + stamp + "_" + sha256[..12] + "_" + nonce[..12]
  }

  predicate IsBundleId(s: string) {
    && |s| == 53 && s[..5] == "ckpg_" && IsStamp(s[5..27]) && s[27] == '_' && IsHex(s[28..40], 12)
    && s[40] == '_' && IsHex(s[41..], 12)
  }

  lemma BundleIdValid(stamp: string, sha256: string, nonce: string)
    requires IsStamp(stamp) && IsHex(sha256, 64) && IsHex(nonce, 24)
    ensures IsBundleId(BundleId(stamp, sha256, nonce)) && BundleId(stamp, sha256, nonce)[28..40] == sha256[..12]
    ensures BundleId(stamp, sha256, nonce)[..28] == "ckpg_" + stamp + "_" && BundleId(stamp, sha256, nonce)[40..] == "_" + nonce[..12]
  {
    var s := BundleId(stamp, sha256, nonce);
    assert s == "ckpg_" + (stamp + ("_" + (sha256[..12] + ("_" + nonce[..12]))));
    assert s[5..27] == stamp && s[28..40] == sha256[..12] && s[41..] == nonce[..12] && s[..5] == "ckpg_";
  }

  function DaysIn(year: nat, month: nat): nat {
    if month == 2 then if year % 4 == 0 && (year % 100 != 0 || year % 400 == 0) then 29 else 28
    else if month in {4, 6, 9, 11} then 30
    else 31
  }

  predicate InRange(digits: string, low: nat, high: nat) { AllDigits(digits) && low <= ParseNat(digits) <= high }

  // YYYY-MM-DDTHH:MM:SSZ, with six digits of a second unless they are zero.
  predicate IsTimestamp(s: string) {
    && (|s| == 20 || (|s| == 27 && s[19] == '.' && InRange(s[20..26], 1, 999_999)))
    && s[4] == '-' && s[7] == '-' && s[10] == 'T' && s[13] == ':' && s[16] == ':' && s[|s| - 1] == 'Z'
    && InRange(s[..4], 1, 9999) && InRange(s[5..7], 1, 12)
    && InRange(s[8..10], 1, DaysIn(ParseNat(s[..4]), ParseNat(s[5..7])))
    && InRange(s[11..13], 0, 23) && InRange(s[14..16], 0, 59) && InRange(s[17..19], 0, 59)
  }

  // [0-9]{1,2}\.[0-9]{1,3}(?:\.[0-9]{1,3})?
  predicate IsVersion(s: string) {
    var k := DigitRun(s);
    1 <= k <= 2 && k < |s| && s[k] == '.' && IsMinor(s[k + 1..])
  }

  predicate IsMinor(s: string) {
    var k := DigitRun(s);
    1 <= k <= 3 && (k == |s| || (s[k] == '.' && 1 <= |s[k + 1..]| <= 3 && AllDigits(s[k + 1..])))
  }

  // version.split(".", 1)[0], as text and as a number.
  function MajorText(version: string): (r: string)
    ensures AllDigits(r)
  {
    version[..DigitRun(version)]
  }

  function Major(version: string): nat { ParseNat(MajorText(version)) }

  predicate IsValid(m: Manifest) {
    && IsBundleId(m.bundleId) && IsTimestamp(m.createdAt) && IsHex(m.archiveSha256, 64)
    && 0 < m.archiveSize <= MAX_ARCHIVE_SIZE && 0 < m.tocEntries <= MAX_TOC_ENTRIES
    && IsVersion(m.dump) && IsVersion(m.restore) && MajorText(m.dump) == MajorText(m.restore)
    && m.bundleId[28..40] == m.archiveSha256[..12]
  }

  // ---------- the forms, part by part ----------

  // Between one and so many digits.
  predicate IsNumeral(s: string, most: nat) { 1 <= |s| <= most && AllDigits(s) }

  // One number, or two with a point between them.
  ghost predicate IsMinorText(s: string) {
    IsNumeral(s, 3) || exists b, c :: IsNumeral(b, 3) && IsNumeral(c, 3) && IsPointed(s, b, c)
  }

  // A number, a point, and one or two more.
  ghost predicate IsVersionText(s: string) {
    exists a, rest :: IsNumeral(a, 2) && IsMinorText(rest) && IsPointed(s, a, rest)
  }

  predicate IsPointed(s: string, a: string, b: string) { s == a + ("." + b) }

  lemma PointedRun(s: string, a: string, b: string)
    requires AllDigits(a) && IsPointed(s, a, b)
    ensures |a| < |s| && DigitRun(s) == |a| && s[..|a|] == a && s[|a|] == '.' && s[|a| + 1..] == b
  {
    DigitRunOf(a, "." + b);
  }

  lemma RunPointed(s: string, k: nat)
    requires k < |s| && s[k] == '.'
    ensures IsPointed(s, s[..k], s[k + 1..])
  {
  }

  lemma MinorIff(s: string)
    ensures IsMinor(s) <==> IsMinorText(s)
  {
    var k := DigitRun(s);
    if k < |s| && s[k] == '.' {
      RunPointed(s, k);
    }
    if IsNumeral(s, 3) {
      DigitRunOf(s, "");
      assert s + "" == s;
    }
    assert k == |s| ==> s[..k] == s;
    hide DigitRun, AllDigits;
    if b, c :| IsNumeral(b, 3) && IsNumeral(c, 3) && IsPointed(s, b, c) {
      PointedRun(s, b, c);
    }
  }

  lemma VersionIff(s: string)
    ensures IsVersion(s) <==> IsVersionText(s)
  {
    var k := DigitRun(s);
    if k < |s| && s[k] == '.' {
      RunPointed(s, k);
      MinorIff(s[k + 1..]);
    }
    hide DigitRun, AllDigits, IsMinor, IsMinorText, IsPointed;
    if a, rest :| IsNumeral(a, 2) && IsMinorText(rest) && IsPointed(s, a, rest) {
      PointedRun(s, a, rest);
      MinorIff(rest);
    }
  }

  // A name with its date, its time, and the two beginnings.
  predicate IsNameOf(s: string, day: string, time: string, digest: string, nonce: string) {
    && |day| == 8 && AllDigits(day) && |time| == 12 && AllDigits(time) && IsHex(digest, 12) && IsHex(nonce, 12)
    && s == "ckpg_" + (day + ("T" + (time + ("Z_" + (digest + ("_" + nonce))))))
  }

  lemma NameParts(s: string)
    requires IsBundleId(s)
    ensures IsNameOf(s, s[5..13], s[14..26], s[28..40], s[41..])
  {
    hide AllDigits, IsHex;
    var stamp := s[5..27];
    assert stamp[..8] == s[5..13] && stamp[9..21] == s[14..26] && stamp[8] == s[13] && stamp[21] == s[26];
    assert s == s[..5] + (s[5..13] + ([s[13]] + (s[14..26] + ([s[26], s[27]] + (s[28..40] + ([s[40]] + s[41..]))))));
  }

  lemma NamedParts(s: string, day: string, time: string, digest: string, nonce: string)
    requires IsNameOf(s, day, time, digest, nonce)
    ensures IsBundleId(s) && s[28..40] == digest
  {
    assert |digest| == 12 && |nonce| == 12;
    hide AllDigits, IsHex;
    assert s[..5] == "ckpg_" && s[5..13] == day && s[13] == 'T' && s[14..26] == time;
    assert s[26] == 'Z' && s[27] == '_' && s[28..40] == digest && s[40] == '_' && s[41..] == nonce;
    var stamp := s[5..27];
    assert stamp == day + ("T" + (time + "Z"));
    assert stamp[..8] == day && stamp[8] == 'T' && stamp[9..21] == time && stamp[21] == 'Z';
  }

  // The days that months have.
  predicate IsDay(year: nat, month: nat, day: nat) {
    || 1 <= day <= 28
    || (day == 29 && (month != 2 || (year % 4 == 0 && year % 100 != 0) || year % 400 == 0))
    || (day == 30 && month != 2)
    || (day == 31 && month in {1, 3, 5, 7, 8, 10, 12})
  }

  // Behind the seconds: nothing but the zone, or six digits that are not all zero.
  predicate IsZoned(rest: string) {
    rest == "Z" || (|rest| == 8 && rest[0] == '.' && rest[7] == 'Z' && AllDigits(rest[1..7]) && 1 <= ParseNat(rest[1..7]) <= 999_999)
  }

  // Date and time by their parts, each of so many digits.
  ghost predicate IsMoment(s: string) { exists rest :: IsMomentBefore(s, rest) && IsZoned(rest) }

  ghost predicate IsMomentBefore(s: string, rest: string) {
    exists y, m, d, hour, minute, second :: IsMomentOf(s, y, m, d, hour, minute, second, rest)
  }

  predicate IsMomentOf(s: string, y: string, m: string, d: string, hour: string, minute: string, second: string, rest: string) {
    && |y| == 4 && AllDigits(y) && IsTwo(m) && IsTwo(d) && IsTwo(hour) && IsTwo(minute) && IsTwo(second)
    && s == y + "-" + m + "-" + d + "T" + hour + ":" + minute + ":" + second + rest
    && 1 <= ParseNat(y) <= 9_999 && 1 <= ParseNat(m) <= 12 && IsDay(ParseNat(y), ParseNat(m), ParseNat(d))
    && ParseNat(hour) <= 23 && ParseNat(minute) <= 59 && ParseNat(second) <= 59
  }

  predicate IsTwo(s: string) { |s| == 2 && AllDigits(s) }

  lemma DaysAre(year: nat, month: nat, day: nat)
    requires 1 <= month <= 12
    ensures 1 <= day <= DaysIn(year, month) <==> IsDay(year, month, day)
  {
  }

  lemma TimestampParts(s: string)
    requires IsTimestamp(s)
    ensures IsMomentOf(s, s[..4], s[5..7], s[8..10], s[11..13], s[14..16], s[17..19], s[19..]) && IsZoned(s[19..])
  {
    DaysAre(ParseNat(s[..4]), ParseNat(s[5..7]), ParseNat(s[8..10]));
    hide AllDigits, ParseNat, IsDay, DaysIn;
    if |s| == 27 {
      assert s[19..][1..7] == s[20..26];
    } else {
      assert s[19..] == "Z";
    }
    hide IsZoned;
    assert s == s[..4] + "-" + s[5..7] + "-" + s[8..10] + "T" + s[11..13] + ":" + s[14..16] + ":" + s[17..19] + s[19..];
  }

  lemma TimestampOfParts(s: string, y: string, m: string, d: string, hour: string, minute: string, second: string, rest: string)
    requires IsMomentOf(s, y, m, d, hour, minute, second, rest) && IsZoned(rest)
    ensures IsTimestamp(s)
  {
    MomentParts(s, y, m, d, hour, minute, second, rest);
    DaysAre(ParseNat(y), ParseNat(m), ParseNat(d));
    hide AllDigits, ParseNat, IsDay, DaysIn;
    assert |rest| == 8 ==> s[19] == s[19..][0] && s[20..26] == s[19..][1..7];
    assert s[|s| - 1] == rest[|rest| - 1];
  }

  lemma TimestampIff(s: string)
    ensures IsTimestamp(s) <==> IsMoment(s)
  {
    if IsTimestamp(s) {
      TimestampParts(s);
    }
    hide IsTimestamp, IsMomentOf, IsZoned;
    if rest :| IsMomentBefore(s, rest) && IsZoned(rest) {
      var y, m, d, hour, minute, second :| IsMomentOf(s, y, m, d, hour, minute, second, rest);
      TimestampOfParts(s, y, m, d, hour, minute, second, rest);
    }
  }

  lemma MomentParts(s: string, y: string, m: string, d: string, hour: string, minute: string, second: string, rest: string)
    requires IsMomentOf(s, y, m, d, hour, minute, second, rest)
    ensures |s| == 19 + |rest| && s[..4] == y && s[5..7] == m && s[8..10] == d && s[11..13] == hour && s[14..16] == minute && s[17..19] == second
    ensures s[4] == '-' && s[7] == '-' && s[10] == 'T' && s[13] == ':' && s[16] == ':' && s[19..] == rest
  {
    hide AllDigits, ParseNat, IsDay;
  }

  ghost predicate IsNameWith(s: string, digest: string) { exists day, time, nonce :: IsNameOf(s, day, time, digest, nonce) }

  lemma NameIff(s: string, digest: string)
    ensures IsBundleId(s) && s[28..40] == digest <==> IsNameWith(s, digest)
  {
    if IsBundleId(s) {
      NameParts(s);
    }
    hide IsBundleId, IsNameOf;
    if day, time, nonce :| IsNameOf(s, day, time, digest, nonce) {
      NamedParts(s, day, time, digest, nonce);
    }
  }

  /** The manifests that are valid: name, time, digest and versions of these forms, numbers in range, and the name bound to the digest. */
  lemma ValidManifests(m: Manifest)
    ensures IsValid(m) <==>
              && IsHex(m.archiveSha256, 64) && IsNameWith(m.bundleId, m.archiveSha256[..12]) && IsMoment(m.createdAt)
              && 1 <= m.archiveSize <= 9_223_372_036_854_775_807 && 1 <= m.tocEntries <= 50_000_000
              && IsVersionText(m.dump) && IsVersionText(m.restore) && MajorText(m.dump) == MajorText(m.restore)
  {
    VersionIff(m.dump);
    VersionIff(m.restore);
    TimestampIff(m.createdAt);
    if IsHex(m.archiveSha256, 64) {
      NameIff(m.bundleId, m.archiveSha256[..12]);
    }
    hide IsVersionText, IsVersion, IsTimestamp, IsMoment, IsNameWith, HexChar, IsStamp, MajorText;
  }

  // ---------- printing and reading ----------

  function NumberValue(text: string): real { if AllDigits(text) then ParseNat(text) as real else 0.0 }

  function Number(n: nat): Json { Num(n as real, Digits(n)) }

  // In key order.
  function Fields(m: Manifest): (r: seq<Field>)
    ensures |r| == 12
  {
    [Field("archive_filename", Str("database.dump")),
     Field("archive_format", Str("postgresql-custom")),
     Field("archive_sha256", Str(m.archiveSha256)),
     Field("archive_size_bytes", Number(m.archiveSize)),
     Field("bundle_id", Str(m.bundleId)),
     Field("created_at", Str(m.createdAt)),
     Field("owner_commands_included", Bool(false)),
     Field("pg_dump_version", Str(m.dump)),
     Field("pg_restore_version", Str(m.restore)),
     Field("privilege_commands_included", Bool(false)),
     Field("schema_id", Str("corpuskit.postgres-backup-manifest.v1")),
     Field("toc_entry_count", Number(m.tocEntries))]
  }

  function Print(m: Manifest): string { Encode(Obj(Fields(m))) + "\n" }

  function ReadText(fields: seq<Field>, name: string): Option<string> {
    match Find(fields, name)
    case Some(Str(s)) => Some(s)
    case _ => None
  }

  function ReadNumber(fields: seq<Field>, name: string): Option<nat> {
    match Find(fields, name)
    case Some(Num(_, text)) => if AllDigits(text) then Some(ParseNat(text)) else None
    case _ => None
  }

  function Read(fields: seq<Field>): Option<Manifest> {
    var id, at, sha256 := ReadText(fields, "bundle_id"), ReadText(fields, "created_at"), ReadText(fields, "archive_sha256");
    var size, entries := ReadNumber(fields, "archive_size_bytes"), ReadNumber(fields, "toc_entry_count");
    var dump, restore := ReadText(fields, "pg_dump_version"), ReadText(fields, "pg_restore_version");
    if id.Some? && at.Some? && sha256.Some? && size.Some? && entries.Some? && dump.Some? && restore.Some?
    then Some(Manifest(id.value, at.value, sha256.value, size.value, entries.value, dump.value, restore.value))
    else None
  }

  // parse_manifest_file: a valid manifest, written exactly as it would be printed.
  function Parse(text: string): Option<Manifest> {
    if text == "" || text[|text| - 1] != '\n' then None
    else
      match Loads(text[..|text| - 1], NumberValue)
      case Some(Obj(fields)) =>
        (match Read(fields)
         case Some(m) => if IsValid(m) && text == Print(m) then Some(m) else None
         case None => None)
      case _ => None
  }

  // ---------- the manifest in key order ----------

  const NAMES := ["archive_filename", "archive_format", "archive_sha256", "archive_size_bytes", "bundle_id", "created_at",
                  "owner_commands_included", "pg_dump_version", "pg_restore_version", "privilege_commands_included",
                  "schema_id", "toc_entry_count"]

  lemma ArchiveNames()
    ensures Less("archive_filename", "archive_format") && Less("archive_format", "archive_sha256")
    ensures Less("archive_sha256", "archive_size_bytes")
  {
    hide Less;
    LessAt("archive_filename", "archive_format", 9);
    LessAt("archive_format", "archive_sha256", 8);
    LessAt("archive_sha256", "archive_size_bytes", 9);
  }

  lemma ProcessNames()
    ensures Less("pg_dump_version", "pg_restore_version") && Less("pg_restore_version", "privilege_commands_included")
  {
    hide Less;
    LessAt("pg_dump_version", "pg_restore_version", 3);
    LessAt("pg_restore_version", "privilege_commands_included", 1);
  }

  lemma OtherNames()
    ensures Less("archive_size_bytes", "bundle_id") && Less("bundle_id", "created_at") && Less("created_at", "owner_commands_included")
    ensures Less("owner_commands_included", "pg_dump_version") && Less("privilege_commands_included", "schema_id")
    ensures Less("schema_id", "toc_entry_count")
  {
    hide Less;
    LessAt("archive_size_bytes", "bundle_id", 0);
    LessAt("bundle_id", "created_at", 0);
    LessAt("created_at", "owner_commands_included", 0);
    LessAt("owner_commands_included", "pg_dump_version", 0);
    LessAt("privilege_commands_included", "schema_id", 0);
    LessAt("schema_id", "toc_entry_count", 0);
  }

  lemma NamesStepUp()
    ensures StepsUp(NAMES)
  {
    hide Less;
    ArchiveNames();
    ProcessNames();
    OtherNames();
  }

  lemma FieldsHaveNames(m: Manifest)
    ensures |NAMES| == 12 && forall i :: 0 <= i < 12 ==> FieldName(Fields(m)[i]) == NAMES[i]
  {
  }

  lemma FieldsIncrease(m: Manifest)
    ensures Increasing(Fields(m), FieldName) && DistinctNames(Fields(m))
  {
    hide Less, Fields, StepsUp, NAMES;
    FieldsHaveNames(m);
    NamesStepUp();
    StepsAscend(NAMES);
    AscendingDistinct(NAMES);
    var xs := Fields(m);
    forall i, j | 0 <= i < j < |xs| ensures Less(FieldName(xs[i]), FieldName(xs[j])) && xs[i].name != xs[j].name {
      assert FieldName(xs[i]) == NAMES[i] && FieldName(xs[j]) == NAMES[j];
    }
  }

  // Sorting the members and reading back their values changes nothing.
  lemma NormalFieldsOf(m: Manifest)
    ensures Normal(Obj(Fields(m))) == Obj(Fields(m))
    ensures SortBy(Fields(m), FieldName) == Fields(m)
  {
    hide Fields, SortBy, Normal, Encode, Increasing;
    var xs := Fields(m);
    FieldsIncrease(m);
    SortedStays(xs);
    EncodeObject(Obj(xs));
    FieldsAreAtoms(m);
    AtomsAreNormal(xs);
  }

  lemma AtomsAreNormal(xs: seq<Field>)
    requires forall i :: 0 <= i < |xs| ==> !xs[i].value.Arr? && !xs[i].value.Obj?
    ensures Map(NormalField, xs) == xs
  {
  }

  lemma FieldsAreAtoms(m: Manifest)
    ensures forall i :: 0 <= i < 12 ==> !Fields(m)[i].value.Arr? && !Fields(m)[i].value.Obj?
  {
  }

  // ---------- the round trip ----------

  lemma NumberIsPrinted(n: nat)
    ensures IsNumberText(Digits(n)) && NumberValue(Digits(n)) == n as real
  {
    var s := Digits(n);
    ParseDigits(n);
    assert s[..|s|] == s;
    assert SplitsAt(s, |s|, |s|);
  }

  lemma FieldsPrinted(m: Manifest)
    ensures Printed(Obj(Fields(m)), NumberValue)
  {
    hide IsNumberText, NumberValue;
    NumberIsPrinted(m.archiveSize);
    NumberIsPrinted(m.tocEntries);
  }

  lemma FieldsAt(m: Manifest)
    ensures var xs := Fields(m);
            && xs[2] == Field("archive_sha256", Str(m.archiveSha256)) && xs[3] == Field("archive_size_bytes", Number(m.archiveSize))
            && xs[4] == Field("bundle_id", Str(m.bundleId)) && xs[5] == Field("created_at", Str(m.createdAt))
            && xs[7] == Field("pg_dump_version", Str(m.dump)) && xs[8] == Field("pg_restore_version", Str(m.restore))
            && xs[11] == Field("toc_entry_count", Number(m.tocEntries))
  {
    hide Number;
  }

  lemma ReadFields(m: Manifest)
    ensures Read(Fields(m)) == Some(m)
  {
    var xs := Fields(m);
    FieldsIncrease(m);
    FieldsAt(m);
    ParseDigits(m.archiveSize);
    ParseDigits(m.tocEntries);
    hide Find, Increasing, Fields, DistinctNames, Digits, ParseNat;
    forall i | 0 <= i < 12 ensures Find(xs, xs[i].name) == Some(xs[i].value) {
      FindAt(xs, i);
    }
  }

  /** A manifest file is read exactly when it is the canonical text of a valid manifest, and gives that manifest. */
  lemma ParseIffPrinted(text: string, m: Manifest)
    ensures Parse(text) == Some(m) <==> IsValid(m) && text == Print(m)
  {
    hide IsValid, Fields, Encode, Loads, Read;
    if text == Print(m) {
      assert text[..|text| - 1] == Encode(Obj(Fields(m)));
      FieldsPrinted(m);
      LoadsEncoded(Obj(Fields(m)), NumberValue);
      NormalFieldsOf(m);
      ReadFields(m);
    }
  }

  // ---------- its length ----------

  lemma {:induction false} EscapedLength(s: string)
    ensures |EscapeAll(s)| <= 6 * |s|
  {
    if s != "" {
      EscapedLength(s[1..]);
    }
  }

  function Pow10(k: nat): nat { if k == 0 then 1 else 10 * Pow10(k - 1) }

  lemma {:induction false} DigitsLength(n: nat, k: nat)
    requires k > 0 && n < Pow10(k)
    ensures |Digits(n)| <= k
  {
    if n >= 10 {
      DigitsLength(n / 10, k - 1);
    }
  }

  lemma {:induction false} JoinedLength(parts: seq<string>, most: nat)
    requires forall i :: 0 <= i < |parts| ==> |parts[i]| <= most
    ensures |Join(parts, ",")| <= |parts| * (most + 1)
  {
    if |parts| > 1 {
      JoinedLength(parts[1..], most);
    }
  }

  predicate IsShort(f: Field) {
    |f.name| <= 30 && match f.value case Str(s) => |s| <= 100 case Num(_, text) => |text| <= 100 case v => v == Bool(false)
  }

  lemma MemberLength(f: Field)
    requires IsShort(f)
    ensures |MemberText(f)| <= 1000
  {
    EscapedLength(f.name);
    if f.value.Str? {
      EscapedLength(f.value.s);
    }
  }

  lemma PowersOfTen()
    ensures Pow10(19) == 10_000_000_000_000_000_000
  {
    assert Pow10(5) == 100_000;
    assert Pow10(10) == 100_000 * Pow10(5);
    assert Pow10(15) == 100_000 * Pow10(10);
  }

  lemma ValidLengths(m: Manifest)
    requires IsValid(m)
    ensures |m.bundleId| <= 100 && |m.createdAt| <= 100 && |m.archiveSha256| <= 100 && |m.dump| <= 100 && |m.restore| <= 100
    ensures |Digits(m.archiveSize)| <= 100 && |Digits(m.tocEntries)| <= 100
  {
    hide HexChar, IsStamp, AllDigits, Digits, ParseNat;
    PowersOfTen();
    DigitsLength(m.archiveSize, 19);
    DigitsLength(m.tocEntries, 19);
  }

  lemma FieldsFit(m: Manifest)
    requires |m.bundleId| <= 100 && |m.createdAt| <= 100 && |m.archiveSha256| <= 100 && |m.dump| <= 100 && |m.restore| <= 100
    requires |Digits(m.archiveSize)| <= 100 && |Digits(m.tocEntries)| <= 100
    ensures forall i :: 0 <= i < 12 ==> IsShort(Fields(m)[i])
  {
    hide Digits;
  }

  /** Every valid manifest fits the file it is read from. */
  lemma PrintedFits(m: Manifest)
    requires IsValid(m)
    ensures |Print(m)| <= MAX_MANIFEST_BYTES
  {
    hide IsValid, MemberText, SortBy, Digits, Fields, Join, Encode, Normal, IsShort;
    ValidLengths(m);
    NormalFieldsOf(m);
    FieldsFit(m);
    var xs := Fields(m);
    EncodeObject(Obj(xs));
    forall i | 0 <= i < 12 ensures |MemberText(xs[i])| <= 1000 {
      MemberLength(xs[i]);
    }
    JoinedLength(Map(MemberText, xs), 1000);
  }

  // ---------- its text ----------

  lemma PlainNames()
    ensures IsPlain(NAMES[0]) && IsPlain(NAMES[1]) && IsPlain(NAMES[2]) && IsPlain(NAMES[3]) && IsPlain(NAMES[4]) && IsPlain(NAMES[5])
  {
  }

  lemma OtherPlainNames()
    ensures IsPlain(NAMES[6]) && IsPlain(NAMES[7]) && IsPlain(NAMES[8]) && IsPlain(NAMES[9]) && IsPlain(NAMES[10]) && IsPlain(NAMES[11])
  {
  }

  // The fields of a manifest as they are printed.
  function Members(m: Manifest): (r: seq<string>)
    ensures |r| == 12
  {
    [Labeled("archive_filename", "\"" + "database.dump" + "\""),
     Labeled("archive_format", "\"" + "postgresql-custom" + "\""),
     Labeled("archive_sha256", Quote(m.archiveSha256)),
     Labeled("archive_size_bytes", Digits(m.archiveSize)),
     Labeled("bundle_id", Quote(m.bundleId)),
     Labeled("created_at", Quote(m.createdAt)),
     Labeled("owner_commands_included", "false"),
     Labeled("pg_dump_version", Quote(m.dump)),
     Labeled("pg_restore_version", Quote(m.restore)),
     Labeled("privilege_commands_included", "false"),
     Labeled("schema_id", "\"" + "corpuskit.postgres-backup-manifest.v1" + "\""),
     Labeled("toc_entry_count", Digits(m.tocEntries))]
  }

  lemma ConstantTexts()
    ensures Quote("database.dump") == "\"" + "database.dump" + "\"" && Quote("postgresql-custom") == "\"" + "postgresql-custom" + "\""
    ensures Quote("corpuskit.postgres-backup-manifest.v1") == "\"" + "corpuskit.postgres-backup-manifest.v1" + "\""
  {
    hide Quote, EscapeAll;
    PlainText("database.dump");
    PlainText("postgresql-custom");
    PlainText("corpuskit.postgres-backup-manifest.v1");
  }

  lemma MembersAre(m: Manifest, i: nat)
    requires i < 12
    ensures Members(m)[i] == LabeledText(Fields(m)[i])
  {
    ConstantTexts();
    hide Quote, Digits, Labeled;
  }

  lemma NameIsPlain(m: Manifest, i: nat)
    requires i < 12
    ensures IsPlain(Fields(m)[i].name)
  {
    PlainNames();
    OtherPlainNames();
    FieldsHaveNames(m);
    hide Fields, IsPlain, NAMES;
    assert FieldName(Fields(m)[i]) == NAMES[i] && IsPlain(NAMES[i]);
  }

  /** The text of a manifest: its twelve fields by name, in key order, without spaces, and a line end. */
  lemma PrintedText(m: Manifest)
    ensures Print(m) == "{" + Join(Members(m), ",") + "}" + "\n"
  {
    hide Fields, Members, LabeledText, Join, Encode, IsPlain, Increasing;
    FieldsIncrease(m);
    forall i: nat | i < 12 ensures IsPlain(Fields(m)[i].name) && LabeledText(Fields(m)[i]) == Members(m)[i] {
      NameIsPlain(m, i);
      MembersAre(m, i);
    }
    ObjectText(Fields(m));
    assert Map(LabeledText, Fields(m)) == Members(m);
  }
}
