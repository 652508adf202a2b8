/** Release versions: parsing, the three printed forms, and precedence. */
module ReleaseVersion {
  import opened Wrappers
  import opened Decimal
  import opened UnicodeDigits
  import opened Sorting

  datatype Phase = Alpha | Beta | Rc

  datatype PreRelease = PreRelease(phase: Phase, number: nat)

  datatype Version = Version(major: nat, minor: nat, patch: nat, pre: Option<PreRelease>)

  function PhaseName(p: Phase): string {
    match p
    case Alpha => "alpha"
    case Beta => "beta"
    case Rc => "rc"
  }

  // ---------- printing ----------

  function Core(v: Version): string { Digits(v.major) + ("." + (Digits(v.minor) + ("." + Digits(v.patch)))) }

  function Semver(v: Version): string {
    match v.pre
    case None => Core(v)
    case Some(p) => Core(v) + ("-" + (PhaseName(p.phase) + ("." + Digits(p.number))))
  }

  function Tag(v: Version): string { "v" + Semver(v) }

  function ShortPhase(p: Phase): string {
    match p
    case Alpha => "a"
    case Beta => "b"
    case Rc => "rc"
  }

  function Pep440(v: Version): string {
    match v.pre
    case None => Core(v)
    case Some(p) => Core(v) + (ShortPhase(p.phase) + Digits(p.number))
  }

  /** The three printed forms, for a release and for each kind of pre-release. */
  lemma PrintedForms(v: Version)
    ensures var core := Digits(v.major) + "." + Digits(v.minor) + "." + Digits(v.patch);
            && Tag(v) == "v" + Semver(v)
            && match v.pre
               case None => Semver(v) == core && Pep440(v) == core
               case Some(PreRelease(Alpha, n)) => Semver(v) == core + "-alpha." + Digits(n) && Pep440(v) == core + "a" + Digits(n)
               case Some(PreRelease(Beta, n)) => Semver(v) == core + "-beta." + Digits(n) && Pep440(v) == core + "b" + Digits(n)
               case Some(PreRelease(Rc, n)) => Semver(v) == core + "-rc." + Digits(n) && Pep440(v) == core + "rc" + Digits(n)
  {
    hide Digits;
    Dotted(Digits(v.major), Digits(v.minor), Digits(v.patch));
    Separators();
    if v.pre.Some? {
      var n := Digits(v.pre.value.number);
      Dashed(Core(v), "alpha", n, "-alpha.");
      Dashed(Core(v), "beta", n, "-beta.");
      Dashed(Core(v), "rc", n, "-rc.");
      hide Core;
      Joined(Core(v), "a", n);
      Joined(Core(v), "b", n);
      Joined(Core(v), "rc", n);
    }
  }

  lemma Separators()
    ensures "-" + "alpha" + "." == "-alpha." && "-" + "beta" + "." == "-beta." && "-" + "rc" + "." == "-rc."
  {
  }

  lemma Joined(core: string, phase: string, number: string)
    ensures core + (phase + number) == core + phase + number
  {
  }

  lemma Dotted(a: string, b: string, c: string)
    ensures a + ("." + (b + ("." + c))) == a + "." + b + "." + c
  {
  }

  lemma Dashed(core: string, phase: string, number: string, between: string)
    requires between == "-" + phase + "."
    ensures core + ("-" + (phase + ("." + number))) == core + between + number
  {
    assert "-" + (phase + ("." + number)) == "-" + phase + "." + number;
  }

  // ---------- parsing ----------

  // int() and str() convert at most so many digits.
  const MAX_DIGITS := 4300

  predicate IsConvertible(n: nat) { |Digits(n)| <= MAX_DIGITS }

  // All numbers of the version can be printed.
  predicate IsPrintable(v: Version) {
    IsConvertible(v.major) && IsConvertible(v.minor) && IsConvertible(v.patch) && (v.pre.Some? ==> IsConvertible(v.pre.value.number))
  }

  // 0|[1-9]\d* at the front, converted, and what follows.
  function TakeNumber(s: string): (r: Option<(nat, string)>)
    ensures r.Some? ==> |r.value.1| < |s|
  {
    var k := DecimalRun(s);
    if k == 0 || k > MAX_DIGITS || !IsDigit(s[0]) || (s[0] == '0' && k > 1) then None else Some((ParseDecimal(s, k), s[k..]))
  }

  function TakeText(s: string, text: string): Option<string> {
    if text <= s then Some(s[|text|..]) else None
  }

  function TakePhase(s: string): Option<(Phase, string)> {
    if "alpha" <= s then Some((Alpha, s[5..]))
    else if "beta" <= s then Some((Beta, s[4..]))
    else if "rc" <= s then Some((Rc, s[2..]))
    else None
  }

  // What is left of the grammar after the three numbers: nothing, or a pre-release.
  function TakePre(s: string): (r: Option<Option<PreRelease>>) {
    if s == "" then Some(None)
    else
      match TakeText(s, "-")
      case None => None
      case Some(a) =>
        match TakePhase(a)
        case None => None
        case Some((phase, b)) =>
          match TakeText(b, ".")
          case None => None
          case Some(c) =>
            match TakeNumber(c)
            case None => None
            case Some((number, rest)) => if rest == "" then Some(Some(PreRelease(phase, number))) else None
  }

  // A number followed by a dot.
  function TakePart(s: string): (r: Option<(nat, string)>) {
    match TakeNumber(s)
    case None => None
    case Some((n, rest)) =>
      match TakeText(rest, ".")
      case None => None
      case Some(after) => Some((n, after))
  }

  // Without the v.
  function ParseBare(s: string): Option<Version> {
    match TakePart(s)
    case None => None
    case Some((major, a)) =>
      match TakePart(a)
      case None => None
      case Some((minor, b)) =>
        match TakeNumber(b)
        case None => None
        case Some((patch, c)) =>
          match TakePre(c)
          case None => None
          case Some(pre) => Some(Version(major, minor, patch, pre))
  }

  function Parse(s: string): Option<Version> { ParseBare(TakeText(s, "v").GetOr(s)) }

  // ---------- parsing inverts printing ----------

  // s is t, but for digits of other scripts inside numerals.
  predicate Reads(s: string, t: string) { Fold(s) == t && AsciiLeads(s) }

  // Text that reads only as itself.
  predicate IsPlain(text: string) { forall i :: 0 <= i < |text| ==> text[i] < 0x660 as char && !IsDigit(text[i]) }

  lemma ReadsSlice(s: string, k: nat)
    requires k <= |s|
    ensures Fold(s)[k..] == Fold(s[k..]) && Fold(s)[..k] == Fold(s[..k])
  {
  }

  /** A number is taken from the front exactly when the text reads as its decimal form and something that goes on without a digit. */
  lemma TakeNumberReads(s: string)
    requires TakeNumber(s).Some?
    ensures var (n, rest) := TakeNumber(s).value;
            && Fold(s) == Digits(n) + Fold(rest) && (AsciiLeads(s) <==> AsciiLeads(rest))
            && (rest != "" ==> !IsDecimal(rest[0])) && IsConvertible(n)
  {
    hide FoldChar, Digits, ParseNat, AsciiLeads, DecimalValue;
    var k := DecimalRun(s);
    var run := Fold(s)[..k];
    assert run[0] == FoldChar(s[0]) == s[0];
    DigitsParse(run);
    ReadsSlice(s, k);
    assert Fold(s) == run + Fold(s)[k..];
    forall i | 0 <= i < k ensures IsDecimal(s[i]) {
      assert run[i] == FoldChar(s[i]);
    }
    LeadsAfterRun(s, k);
  }

  lemma ReadsTakeNumber(s: string, n: nat, t: string)
    requires Reads(s, Digits(n) + t) && (t != "" ==> !IsDigit(t[0])) && IsConvertible(n)
    ensures TakeNumber(s).Some? && TakeNumber(s).value.0 == n && Reads(TakeNumber(s).value.1, t)
  {
    hide FoldChar, ParseNat, AsciiLeads, DecimalValue, Digits;
    var d := Digits(n);
    DigitRunOf(d, t);
    ParseDigits(n);
    assert (d + t)[..|d|] == d && (d + t)[|d|..] == t;
    var k := DecimalRun(s);
    ReadsSlice(s, k);
    forall i | 0 <= i < k ensures IsDecimal(s[i]) {
      assert d[i] == FoldChar(s[i]);
    }
    LeadsAfterRun(s, k);
    assert FoldChar(s[0]) == d[0] == s[0];
  }

  lemma TakeTextReads(s: string, text: string)
    requires IsPlain(text) && TakeText(s, text).Some?
    ensures Fold(s) == text + Fold(TakeText(s, text).value) && (AsciiLeads(s) <==> AsciiLeads(TakeText(s, text).value))
  {
    hide DecimalValue, AsciiLeads;
    ReadsSlice(s, |text|);
    assert forall i :: 0 <= i < |text| ==> s[i] == text[i] && !IsDecimal(s[i]) && Fold(s)[i] == text[i];
    LeadsAfterText(s, |text|);
  }

  lemma ReadsTakeText(s: string, text: string, t: string)
    requires IsPlain(text) && Reads(s, text + t)
    ensures TakeText(s, text).Some? && Reads(TakeText(s, text).value, t)
  {
    hide AsciiLeads;
    forall i | 0 <= i < |text| ensures s[i] == text[i] && !IsDecimal(s[i]) {
      assert FoldChar(s[i]) == (text + t)[i] == text[i];
    }
    ReadsSlice(s, |text|);
    assert (text + t)[|text|..] == t;
    LeadsAfterText(s, |text|);
  }

  lemma TakePhaseReads(s: string)
    requires TakePhase(s).Some?
    ensures Fold(s) == PhaseName(TakePhase(s).value.0) + Fold(TakePhase(s).value.1)
    ensures AsciiLeads(s) <==> AsciiLeads(TakePhase(s).value.1)
  {
    hide AsciiLeads, Fold;
    TakeTextReads(s, PhaseName(TakePhase(s).value.0));
  }

  lemma ReadsTakePhase(s: string, p: Phase, t: string)
    requires Reads(s, PhaseName(p) + t)
    ensures TakePhase(s).Some? && TakePhase(s).value.0 == p && Reads(TakePhase(s).value.1, t)
  {
    hide Reads;
    ReadsTakeText(s, PhaseName(p), t);
    assert PhaseName(p)[0] == s[0] && "alpha"[0] == 'a' && "beta"[0] == 'b' && "rc"[0] == 'r';
  }

  // A number and a dot.
  lemma TakePartReads(s: string)
    requires TakePart(s).Some?
    ensures Fold(s) == Digits(TakePart(s).value.0) + ("." + Fold(TakePart(s).value.1)) && IsConvertible(TakePart(s).value.0)
    ensures AsciiLeads(s) <==> AsciiLeads(TakePart(s).value.1)
  {
    hide TakeNumber, TakeText, AsciiLeads, Fold, Digits;
    TakeNumberReads(s);
    TakeTextReads(TakeNumber(s).value.1, ".");
  }

  lemma ReadsTakePart(s: string, n: nat, t: string)
    requires Reads(s, Digits(n) + ("." + t)) && IsConvertible(n)
    ensures TakePart(s).Some? && TakePart(s).value.0 == n && Reads(TakePart(s).value.1, t)
  {
    hide TakeNumber, TakeText, Reads, Digits;
    ReadsTakeNumber(s, n, "." + t);
    ReadsTakeText(TakeNumber(s).value.1, ".", t);
  }

  function PreText(pre: Option<PreRelease>): string {
    match pre
    case None => ""
    case Some(p) => "-" + (PhaseName(p.phase) + ("." + Digits(p.number)))
  }

  lemma TakePreReads(s: string)
    requires TakePre(s).Some?
    ensures Fold(s) == PreText(TakePre(s).value) && AsciiLeads(s)
    ensures TakePre(s).value.Some? ==> IsConvertible(TakePre(s).value.value.number)
  {
    hide TakeNumber, TakePhase, TakeText, PhaseName, Digits;
    if s != "" {
      hide AsciiLeads, Fold;
      var a := TakeText(s, "-").value;
      var (phase, b) := TakePhase(a).value;
      var c := TakeText(b, ".").value;
      var (number, rest) := TakeNumber(c).value;
      TakeTextReads(s, "-");
      TakePhaseReads(a);
      TakeTextReads(b, ".");
      TakeNumberReads(c);
      EmptyReads();
      assert Digits(number) + "" == Digits(number);
    }
  }

  lemma EmptyReads()
    ensures Fold("") == "" && AsciiLeads("")
  {
  }

  lemma ReadsTakePre(s: string, pre: Option<PreRelease>)
    requires Reads(s, PreText(pre)) && (pre.Some? ==> IsConvertible(pre.value.number))
    ensures TakePre(s) == Some(pre)
  {
    if pre.Some? {
      hide TakeNumber, TakePhase, TakeText, PhaseName, Digits;
      var p := pre.value;
      var number := "." + Digits(p.number);
      assert Digits(p.number) + "" == Digits(p.number);
      ReadsTakeText(s, "-", PhaseName(p.phase) + number);
      var a := TakeText(s, "-").value;
      ReadsTakePhase(a, p.phase, number);
      var b := TakePhase(a).value.1;
      ReadsTakeText(b, ".", Digits(p.number));
      ReadsTakeNumber(TakeText(b, ".").value, p.number, "");
    }
  }

  lemma SemverParts(v: Version)
    ensures Semver(v) == Digits(v.major) + ("." + (Digits(v.minor) + ("." + (Digits(v.patch) + PreText(v.pre)))))
  {
    hide Digits, PhaseName;
    var a, b, c, d := Digits(v.major), Digits(v.minor), Digits(v.patch), PreText(v.pre);
    assert a + ("." + (b + ("." + c))) + d == a + ("." + (b + ("." + (c + d))));
    assert Core(v) + "" == Core(v);
  }

  lemma BareReads(s: string, v: Version)
    ensures ParseBare(s) == Some(v) <==> IsPrintable(v) && Reads(s, Semver(v))
  {
    hide TakeNumber, TakePart, TakePre, Digits, Semver, AsciiLeads, Fold, PreText;
    SemverParts(v);
    if ParseBare(s) == Some(v) {
      var a := TakePart(s).value.1;
      var b := TakePart(a).value.1;
      var c := TakeNumber(b).value.1;
      TakePartReads(s);
      TakePartReads(a);
      TakeNumberReads(b);
      TakePreReads(c);
    }
    if IsPrintable(v) && Reads(s, Semver(v)) {
      hide Reads, IsConvertible;
      ReadsTakePart(s, v.major, Digits(v.minor) + ("." + (Digits(v.patch) + PreText(v.pre))));
      var a := TakePart(s).value.1;
      ReadsTakePart(a, v.minor, Digits(v.patch) + PreText(v.pre));
      var b := TakePart(a).value.1;
      NoDigitFirst(v.pre);
      ReadsTakeNumber(b, v.patch, PreText(v.pre));
      ReadsTakePre(TakeNumber(b).value.1, v.pre);
    }
  }

  lemma NoDigitFirst(pre: Option<PreRelease>)
    ensures PreText(pre) != "" ==> !IsDigit(PreText(pre)[0])
  {
  }

  // The bare form starts with a digit, so it is no text with a v.
  lemma NoLetterFirst(s: string, v: Version)
    requires Reads(s, Semver(v))
    ensures !("v" <= s)
  {
    hide Digits;
    SemverParts(v);
    assert FoldChar(s[0]) == Semver(v)[0] == Digits(v.major)[0];
    assert FoldChar('v') == 'v';
  }

  /**
   * A text is accepted as a version exactly when the version can be printed and the text reads as its
   * printed form, with or without the v: digits after the first of a numeral may be of any script.
   */
  lemma ParseIffPrinted(s: string, v: Version)
    ensures Parse(s) == Some(v) <==> IsPrintable(v) && (Reads(s, Semver(v)) || Reads(s, Tag(v)))
  {
    hide TakePart, TakeNumber, TakePre, Digits, Semver, Reads, IsConvertible;
    if "v" <= s {
      BareReads(s[1..], v);
      assert Parse(s) == ParseBare(s[1..]);
      if Reads(s, Semver(v)) {
        NoLetterFirst(s, v);
      }
      TagReads(s, v);
    } else {
      BareReads(s, v);
      assert Parse(s) == ParseBare(s);
      if Reads(s, Tag(v)) {
        ReadsTakeText(s, "v", Semver(v));
      }
    }
  }

  lemma TagReads(s: string, v: Version)
    requires "v" <= s
    ensures Reads(s, Tag(v)) <==> Reads(s[1..], Semver(v))
  {
    hide Semver, AsciiLeads, Fold;
    TakeTextReads(s, "v");
    assert ("v" + Fold(s[1..]))[1..] == Fold(s[1..]) && ("v" + Semver(v))[1..] == Semver(v);
  }

  lemma AsciiReads(s: string)
    requires forall i :: 0 <= i < |s| ==> s[i] < 0x660 as char
    ensures Fold(s) == s && AsciiLeads(s)
  {
    hide DecimalValue;
    assert forall i :: 0 <= i < |s| ==> (IsDecimal(s[i]) ==> IsDigit(s[i]));
  }

  lemma SemverIsAscii(v: Version)
    ensures forall i :: 0 <= i < |Semver(v)| ==> Semver(v)[i] < 0x660 as char
  {
    hide Digits;
    SemverParts(v);
    assert forall i :: 0 <= i < |PreText(v.pre)| ==> PreText(v.pre)[i] < 0x660 as char;
  }

  /** Printed forms are read back, and of texts in ASCII nothing else is. */
  lemma ParsePrinted(s: string, v: Version)
    requires IsPrintable(v)
    ensures Parse(Semver(v)) == Some(v) && Parse(Tag(v)) == Some(v)
    ensures (forall i :: 0 <= i < |s| ==> s[i] < 0x660 as char) ==> (Parse(s) == Some(v) <==> s == Semver(v) || s == Tag(v))
  {
    hide Parse, Semver, Fold, AsciiLeads;
    SemverIsAscii(v);
    AsciiReads(Semver(v));
    AsciiReads(Tag(v));
    ParseIffPrinted(Semver(v), v);
    ParseIffPrinted(Tag(v), v);
    ParseIffPrinted(s, v);
    if forall i :: 0 <= i < |s| ==> s[i] < 0x660 as char {
      AsciiReads(s);
    }
  }

  /** A text that is not printed and is accepted: its last digit is an Arabic-Indic three. */
  lemma OtherDigitsAreRead()
    ensures Parse("v1.2.1\U{0663}") == Some(Version(1, 2, 13, None))
  {
    var s, v := "v1.2.1\U{0663}", Version(1, 2, 13, None);
    OneTwoThirteen();
    ArabicThree();
    hide DecimalValue, Parse, Tag, Semver, DigitAfter, IsConvertible;
    assert FoldChar(s[6]) == '3';
    assert Fold(s) == "v1.2.13";
    assert AsciiLeads(s);
    ParseIffPrinted(s, v);
  }

  lemma ArabicThree()
    ensures DecimalValue('\U{0663}') == Some(3)
  {
    assert ZEROS[0] == 0x660;
    assert DigitAfter(ZEROS, 0x663) == Some(3);
    assert !IsDigit('\U{0663}') && '\U{0663}' as nat == 0x663;
  }

  lemma OneTwoThirteen()
    ensures Tag(Version(1, 2, 13, None)) == "v1.2.13" && IsPrintable(Version(1, 2, 13, None))
  {
    assert Digits(1) == [DigitChar(1)] == "1" && Digits(2) == [DigitChar(2)] == "2";
    assert Digits(13) == Digits(1) + [DigitChar(3)] == "13";
    hide Digits;
  }

  // ---------- the Python form ----------

  // A number at the front of a text is determined.
  lemma FrontNumber(m: nat, n: nat, x: string, y: string)
    requires Digits(m) + x == Digits(n) + y && (x == "" || !IsDigit(x[0])) && (y == "" || !IsDigit(y[0]))
    ensures m == n && x == y
  {
    hide Digits;
    DigitRunOf(Digits(m), x);
    DigitRunOf(Digits(n), y);
    var s := Digits(m) + x;
    assert s[..|Digits(m)|] == Digits(m) && s[|Digits(m)|..] == x && s[..|Digits(n)|] == Digits(n) && s[|Digits(n)|..] == y;
    DigitsInjective(m, n);
  }

  lemma CoreSplit(v: Version, w: Version, x: string, y: string)
    requires Core(v) + x == Core(w) + y
    requires (x == "" || !IsDigit(x[0])) && (y == "" || !IsDigit(y[0]))
    ensures v.major == w.major && v.minor == w.minor && v.patch == w.patch && x == y
  {
    hide Digits;
    var a, c := Digits(v.minor) + ("." + (Digits(v.patch) + x)), Digits(w.minor) + ("." + (Digits(w.patch) + y));
    assert Core(v) + x == Digits(v.major) + ("." + a) && Core(w) + y == Digits(w.major) + ("." + c);
    FrontNumber(v.major, w.major, "." + a, "." + c);
    assert ("." + a)[1..] == a && ("." + c)[1..] == c;
    var b, d := Digits(v.patch) + x, Digits(w.patch) + y;
    FrontNumber(v.minor, w.minor, "." + b, "." + d);
    assert ("." + b)[1..] == b && ("." + d)[1..] == d;
    FrontNumber(v.patch, w.patch, x, y);
  }

  function ShortPre(pre: Option<PreRelease>): string {
    match pre
    case None => ""
    case Some(p) => ShortPhase(p.phase) + Digits(p.number)
  }

  lemma ShortPreInjective(p: Option<PreRelease>, q: Option<PreRelease>)
    requires ShortPre(p) == ShortPre(q)
    ensures p == q
  {
    if p.Some? && q.Some? {
      var s := ShortPre(p);
      assert s[0] == ShortPhase(p.value.phase)[0] == ShortPhase(q.value.phase)[0];
      assert p.value.phase == q.value.phase;
      var n := |ShortPhase(p.value.phase)|;
      assert s[n..] == Digits(p.value.number) == Digits(q.value.number);
      DigitsInjective(p.value.number, q.value.number);
    }
  }

  /** No two versions share a Python version. */
  lemma Pep440Injective(v: Version, w: Version)
    requires Pep440(v) == Pep440(w)
    ensures v == w
  {
    hide Digits;
    assert Pep440(v) == Core(v) + ShortPre(v.pre) && Pep440(w) == Core(w) + ShortPre(w.pre);
    assert ShortPre(v.pre) == "" || !IsDigit(ShortPre(v.pre)[0]);
    assert ShortPre(w.pre) == "" || !IsDigit(ShortPre(w.pre)[0]);
    CoreSplit(v, w, ShortPre(v.pre), ShortPre(w.pre));
    ShortPreInjective(v.pre, w.pre);
  }

  // ---------- precedence ----------

  function PhaseRank(pre: Option<PreRelease>): nat {
    match pre
    case None => 3
    case Some(p) => match p.phase case Alpha => 0 case Beta => 1 case Rc => 2
  }

  function Precedence(v: Version): seq<nat> {
    [v.major, v.minor, v.patch, PhaseRank(v.pre), match v.pre case Some(p) => p.number case None => 0]
  }

  // Python's order on tuples of the same length.
  predicate TupleLess(a: seq<nat>, b: seq<nat>)
    requires |a| == |b|
  {
    a != [] && (a[0] < b[0] || (a[0] == b[0] && TupleLess(a[1..], b[1..])))
  }

  predicate Precedes(a: Version, b: Version) { TupleLess(Precedence(a), Precedence(b)) }

  // Section 11 of SemVer 2.0.0 on these forms: numbers first, a release above its pre-releases, then
  // the identifiers in turn, the first by ASCII order and the second as a number.
  predicate SemverLess(a: Version, b: Version) {
    if a.major != b.major then a.major < b.major
    else if a.minor != b.minor then a.minor < b.minor
    else if a.patch != b.patch then a.patch < b.patch
    else if a.pre.None? then false
    else if b.pre.None? then true
    else if a.pre.value.phase != b.pre.value.phase then Less(PhaseName(a.pre.value.phase), PhaseName(b.pre.value.phase))
    else a.pre.value.number < b.pre.value.number
  }

  lemma PhaseOrder(p: Phase, q: Phase)
    ensures p != q ==> (Less(PhaseName(p), PhaseName(q)) <==> PhaseRank(Some(PreRelease(p, 0))) < PhaseRank(Some(PreRelease(q, 0))))
  {
    assert PhaseName(Alpha)[0] == 'a' && PhaseName(Beta)[0] == 'b' && PhaseName(Rc)[0] == 'r';
  }

  lemma TupleUnfold(a: seq<nat>, b: seq<nat>)
    requires |a| == |b| == 5
    ensures TupleLess(a, b) <==>
              a[0] < b[0] || (a[0] == b[0] && (a[1] < b[1] || (a[1] == b[1] && (a[2] < b[2] || (a[2] == b[2] && (a[3] < b[3] || (a[3] == b[3] && a[4] < b[4])))))))
  {
    var (a1, b1) := (a[1..], b[1..]);
    var (a2, b2) := (a1[1..], b1[1..]);
    var (a3, b3) := (a2[1..], b2[1..]);
    var (a4, b4) := (a3[1..], b3[1..]);
    assert TupleLess(a4, b4) <==> a4[0] < b4[0] || (a4[0] == b4[0] && TupleLess(a4[1..], b4[1..]));
    assert TupleLess(a3, b3) <==> a3[0] < b3[0] || (a3[0] == b3[0] && TupleLess(a4, b4));
    assert TupleLess(a2, b2) <==> a2[0] < b2[0] || (a2[0] == b2[0] && TupleLess(a3, b3));
    assert TupleLess(a1, b1) <==> a1[0] < b1[0] || (a1[0] == b1[0] && TupleLess(a2, b2));
  }

  /** The precedence tuple orders versions as SemVer does. */
  lemma PrecedenceIsSemver(a: Version, b: Version)
    ensures Precedes(a, b) <==> SemverLess(a, b)
  {
    TupleUnfold(Precedence(a), Precedence(b));
    if a.pre.Some? && b.pre.Some? {
      PhaseOrder(a.pre.value.phase, b.pre.value.phase);
    }
    hide TupleLess, Less, PhaseName;
  }

  /** Precedence is a strict order in which exactly one of two different versions comes first. */
  lemma PrecedenceIsStrictTotal(a: Version, b: Version, c: Version)
    ensures !Precedes(a, a)
    ensures Precedes(a, b) && Precedes(b, c) ==> Precedes(a, c)
    ensures a == b || Precedes(a, b) || Precedes(b, a)
  {
    TupleUnfold(Precedence(a), Precedence(a));
    TupleUnfold(Precedence(a), Precedence(b));
    TupleUnfold(Precedence(b), Precedence(a));
    TupleUnfold(Precedence(b), Precedence(c));
    TupleUnfold(Precedence(a), Precedence(c));
    hide TupleLess;
  }

  // ---------- rollback ----------

  predicate AcceptsRollback(candidate: string, rollback: string) {
    Parse(candidate).Some? && Parse(rollback).Some? && Precedes(Parse(rollback).value, Parse(candidate).value)
  }

  predicate RollbackChain(tags: seq<string>) { forall i :: 0 <= i < |tags| - 1 ==> AcceptsRollback(tags[i], tags[i + 1]) }

  /** A chain of accepted rollbacks strictly descends, so it never returns to a version. */
  lemma {:induction false} RollbacksDescend(tags: seq<string>, i: nat, j: nat)
    requires RollbackChain(tags) && i < j < |tags|
    ensures AcceptsRollback(tags[i], tags[j]) && Parse(tags[i]) != Parse(tags[j])
    decreases j
  {
    hide Parse, Precedes;
    assert AcceptsRollback(tags[j - 1], tags[j - 1 + 1]);
    if i < j - 1 {
      RollbacksDescend(tags, i, j - 1);
      PrecedenceIsStrictTotal(Parse(tags[j]).value, Parse(tags[j - 1]).value, Parse(tags[i]).value);
    }
    PrecedenceIsStrictTotal(Parse(tags[j]).value, Parse(tags[j]).value, Parse(tags[j]).value);
  }
}
