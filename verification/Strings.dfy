/** Small string operations of the Python standard library that several modules use. */
module Strings {
  // s.rstrip("/")
  function StripSlashes(s: string): string {
    if s != "" && s[|s| - 1] == '/' then StripSlashes(s[..|s| - 1]) else s
  }

  // "".join(parts)
  function Concat(parts: seq<string>): string {
    if parts == [] then "" else parts[0] + Concat(parts[1..])
  }

  // [0-9a-f]{n}, matched in full.
  predicate HexChar(c: char) { '0' <= c <= '9' || 'a' <= c <= 'f' }

  predicate IsHex(s: string, n: nat) { |s| == n && forall i :: 0 <= i < n ==> HexChar(s[i]) }

  /** A digest is so many digits or letters from a to f, in lower case. */
  lemma HexTexts(s: string, n: nat)
    ensures IsHex(s, n) <==> |s| == n && forall c :: c in s ==> c in "0123456789abcdef"
  {
    var digits := "0123456789abcdef";
    forall c ensures HexChar(c) <==> c in digits {
      if '0' <= c <= '9' {
        assert digits[c as int - '0' as int] == c;
      } else if 'a' <= c <= 'f' {
        assert digits[10 + (c as int - 'a' as int)] == c;
      }
    }
    hide HexChar;
    if IsHex(s, n) {
      forall c | c in s ensures c in digits {
        var i :| 0 <= i < |s| && s[i] == c;
        assert HexChar(s[i]);
      }
    }
  }

  // Where str.split() breaks and what str.strip() removes.
  predicate IsSpace(c: char) {
    || '\t' <= c <= '\r' || 0x1c as char <= c <= ' ' || c == 0x85 as char || c == 0xa0 as char || c == 0x1680 as char
    || 0x2000 as char <= c <= 0x200a as char || c == 0x2028 as char || c == 0x2029 as char
    || c == 0x202f as char || c == 0x205f as char || c == 0x3000 as char
  }
}
