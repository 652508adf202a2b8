/** What \d matches and int() reads in Python: the decimal digits of every script (Unicode 15.0). */
module UnicodeDigits {
  import opened Wrappers
  import opened Decimal

  // The zeros of the scripts other than ASCII; nine more digits follow each of them.
  const ZEROS: seq<nat> := [0x660] + [
    0x6f0, 0x7c0, 0x966, 0x9e6, 0xa66, 0xae6, 0xb66, 0xbe6, 0xc66, 0xce6, 0xd66, 0xde6, 0xe50, 0xed0, 0xf20, 0x1040,
    0x1090, 0x17e0, 0x1810, 0x1946, 0x19d0, 0x1a80, 0x1a90, 0x1b50, 0x1bb0, 0x1c40, 0x1c50, 0xa620, 0xa8d0, 0xa900, 0xa9d0,
    0xa9f0, 0xaa50, 0xabf0, 0xff10, 0x104a0, 0x10d30, 0x11066, 0x110f0, 0x11136, 0x111d0, 0x112f0, 0x11450, 0x114d0, 0x11650,
    0x116c0, 0x11730, 0x118e0, 0x11950, 0x11c50, 0x11d50, 0x11da0, 0x11f50, 0x16a60, 0x16ac0, 0x16b50, 0x1d7ce, 0x1d7d8,
    0x1d7e2, 0x1d7ec, 0x1d7f6, 0x1e140, 0x1e2f0, 0x1e4f0, 0x1e950, 0x1fbf0]

  function DigitAfter(zeros: seq<nat>, c: nat): (d: Option<nat>)
    ensures d.Some? ==> d.value < 10
  {
    if zeros == [] then None
    else if zeros[0] <= c < zeros[0] + 10 then Some(c - zeros[0])
    else DigitAfter(zeros[1..], c)
  }

  function DecimalValue(c: char): (d: Option<nat>)
    ensures d.Some? ==> d.value < 10
    ensures IsDigit(c) ==> d == Some(DigitValue(c))
    ensures c < 0x660 as char && !IsDigit(c) ==> d == None
  {
    if IsDigit(c) then Some(DigitValue(c))
    else if c < 0x660 as char then None
    else DigitAfter(ZEROS, c as nat)
  }

  predicate IsDecimal(c: char) { DecimalValue(c).Some? }

  // Every digit as its ASCII form, all else as it is.
  function Fold(s: string): (r: string)
    ensures |r| == |s|
    ensures forall i :: 0 <= i < |s| ==> r[i] == FoldChar(s[i])
  {
    seq(|s|, i requires 0 <= i < |s| => FoldChar(s[i]))
  }

  function FoldChar(c: char): (r: char)
    ensures IsDigit(r) <==> IsDecimal(c)
    ensures IsDigit(c) || !IsDecimal(c) ==> r == c
  {
    match DecimalValue(c)
    case Some(d) => DigitChar(d)
    case None => c
  }

  // \d* at the front.
  function DecimalRun(s: string): (k: nat)
    ensures k <= |s| && AllDigits(Fold(s)[..k])
    ensures k < |s| ==> !IsDecimal(s[k])
  {
    DigitRun(Fold(s))
  }

  // int(s[:k])
  function ParseDecimal(s: string, k: nat): nat
    requires k <= |s| && AllDigits(Fold(s)[..k])
  {
    ParseNat(Fold(s)[..k])
  }

  lemma FoldDigits(s: string, rest: string)
    requires AllDigits(s)
    ensures Fold(s + rest) == s + Fold(rest)
  {
    hide DecimalValue;
  }

  lemma DecimalRunOf(n: nat, rest: string)
    requires rest == "" || !IsDecimal(rest[0])
    ensures DecimalRun(Digits(n) + rest) == |Digits(n)| && ParseDecimal(Digits(n) + rest, |Digits(n)|) == n
  {
    hide DecimalValue, Digits;
    FoldDigits(Digits(n), rest);
    DigitRunOf(Digits(n), Fold(rest));
    ParseDigits(n);
  }

  // No numeral starts with a digit of another script.
  predicate AsciiLeads(s: string) {
    forall i :: 0 <= i < |s| && IsDecimal(s[i]) && !IsDigit(s[i]) ==> i > 0 && IsDecimal(s[i - 1])
  }

  lemma LeadsAfterRun(s: string, k: nat)
    requires k <= |s| && (forall i :: 0 <= i < k ==> IsDecimal(s[i])) && (k < |s| ==> !IsDecimal(s[k]))
    ensures AsciiLeads(s) <==> (k == 0 || IsDigit(s[0])) && AsciiLeads(s[k..])
  {
    hide IsDecimal;
    assert forall i :: 0 <= i < |s[k..]| ==> s[k..][i] == s[k + i];
    assert forall i :: k <= i < |s| ==> s[i] == s[k..][i - k];
    if (k == 0 || IsDigit(s[0])) && AsciiLeads(s[k..]) {
      forall i | 0 <= i < |s| && IsDecimal(s[i]) && !IsDigit(s[i]) ensures i > 0 && IsDecimal(s[i - 1]) {
        if i >= k {
          assert s[k..][i - k] == s[i];
        }
      }
    }
    if AsciiLeads(s) {
      forall i | 0 <= i < |s[k..]| && IsDecimal(s[k..][i]) && !IsDigit(s[k..][i]) ensures i > 0 && IsDecimal(s[k..][i - 1]) {
        assert s[k + i] == s[k..][i] && IsDecimal(s[k + i - 1]);
        assert i != 0;
        assert s[k..][i - 1] == s[k + i - 1];
      }
    }
  }

  lemma LeadsAfterText(s: string, n: nat)
    requires n <= |s| && forall i :: 0 <= i < n ==> !IsDecimal(s[i])
    ensures AsciiLeads(s) <==> AsciiLeads(s[n..])
  {
    hide IsDecimal;
    assert forall i :: 0 <= i < |s[n..]| ==> s[n..][i] == s[n + i];
    assert forall i :: n <= i < |s| ==> s[i] == s[n..][i - n];
    if AsciiLeads(s[n..]) {
      forall i | 0 <= i < |s| && IsDecimal(s[i]) && !IsDigit(s[i]) ensures i > 0 && IsDecimal(s[i - 1]) {
        assert i >= n && s[n..][i - n] == s[i];
        assert s[n..][i - n - 1] == s[i - 1];
      }
    }
    if AsciiLeads(s) {
      forall i | 0 <= i < |s[n..]| && IsDecimal(s[n..][i]) && !IsDigit(s[n..][i]) ensures i > 0 && IsDecimal(s[n..][i - 1]) {
        assert s[n + i] == s[n..][i] && IsDecimal(s[n + i - 1]);
      }
    }
  }
}
