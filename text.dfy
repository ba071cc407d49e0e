/** The Python string operations the services apply to request fields:
    `str.strip()`, the truth value of an optional string, `str.startswith`,
    `str.isdigit()` and `int()` on a string of digits. */
module Text {
  import opened Common

  /** `str.isspace()` for one character: the ASCII controls TAB to CR, the
      information separators U+001C to U+001F, and the Unicode spaces. */
  predicate IsSpace(c: char) {
    || '\t' <= c <= '\r'
    || '\U{1C}' <= c <= '\U{1F}'
    || c == ' ' || c == '\U{85}' || c == '\U{A0}' || c == '\U{1680}'
    || '\U{2000}' <= c <= '\U{200A}'
    || c == '\U{2028}' || c == '\U{2029}' || c == '\U{202F}' || c == '\U{205F}' || c == '\U{3000}'
  }

  ghost predicate AllSpace(s: string) {
    forall i :: 0 <= i < |s| ==> IsSpace(s[i])
  }

  /** `s.lstrip()`: drops the leading whitespace. */
  function TrimStart(s: string): string {
    if s == [] || !IsSpace(s[0]) then s else TrimStart(s[1..])
  }

  /** `s.lstrip()` keeps the suffix of `s` that starts at its first
      non-space: everything cut off is whitespace. */
  lemma {:induction false} TrimStartCuts(s: string)
    ensures var r := TrimStart(s);
            && |r| <= |s| && r == s[|s| - |r|..]
            && (r == [] || !IsSpace(r[0]))
            && AllSpace(s[..|s| - |r|])
  {
    if s != [] && IsSpace(s[0]) {
      var q := s[1..];
      TrimStartCuts(q);
      var r := TrimStart(q);
      assert r == s[|s| - |r|..];
      var cut := s[..|s| - |r|];
      forall i | 0 <= i < |cut| ensures IsSpace(cut[i]) {
        if i > 0 {
          assert cut[i] == q[..|q| - |r|][i - 1];
        }
      }
    }
  }

  /** `s.rstrip()`: drops the trailing whitespace. */
  function TrimEnd(s: string): string {
    if s == [] || !IsSpace(s[|s| - 1]) then s else TrimEnd(s[..|s| - 1])
  }

  /** `s.rstrip()` keeps the prefix of `s` that ends at its last non-space:
      everything cut off is whitespace. */
  lemma {:induction false} TrimEndCuts(s: string)
    ensures var r := TrimEnd(s);
            && |r| <= |s| && r == s[..|r|]
            && (r == [] || !IsSpace(r[|r| - 1]))
            && AllSpace(s[|r|..])
  {
    if s != [] && IsSpace(s[|s| - 1]) {
      var p := s[..|s| - 1];
      TrimEndCuts(p);
      var r := TrimEnd(p);
      assert r == s[..|r|];
      var cut := s[|r|..];
      forall i | 0 <= i < |cut| ensures IsSpace(cut[i]) {
        if i < |cut| - 1 {
          assert cut[i] == p[|r|..][i];
        }
      }
    }
  }

  /** `s.strip()`. */
  function Strip(s: string): string {
    TrimEnd(TrimStart(s))
  }

  /** `s.strip()` is empty exactly when `s` consists of spaces only. */
  lemma StripEmptyIffAllSpace(s: string)
    ensures Strip(s) == [] <==> AllSpace(s)
  {
    var t := TrimStart(s);
    TrimStartCuts(s);
    TrimEndCuts(t);
    var k := |s| - |t|;
    if Strip(s) == [] {
      assert t[|TrimEnd(t)|..] == t;
      assert t == [];
      assert s[..k] == s;
    } else {
      assert s[k] == t[0] == Strip(s)[0];
    }
  }

  /** Python's `not x or not x.strip()` for an optional string `x`. */
  predicate IsBlank(x: Option<string>) {
    x.None? || Strip(x.value) == []
  }

  /** Python's truth value of an optional string: not `None` and not empty. */
  predicate Truthy(x: Option<string>) {
    x.Some? && x.value != []
  }

  /** `s.startswith(p)`. */
  predicate StartsWith(s: string, p: string) {
    |p| <= |s| && s[..|p|] == p
  }

  /** The value of a decimal digit as `int()` reads it: the ASCII digits and
      the Arabic-Indic, extended Arabic-Indic, Devanagari and fullwidth digit
      blocks (other Unicode decimal-digit blocks are not part of this model). */
  function DecimalValue(c: char): Option<nat> {
    if '0' <= c <= '9' then Some(c as int - '0' as int)
    else if '\U{660}' <= c <= '\U{669}' then Some(c as int - 0x660)
    else if '\U{6F0}' <= c <= '\U{6F9}' then Some(c as int - 0x6F0)
    else if '\U{966}' <= c <= '\U{96F}' then Some(c as int - 0x966)
    else if '\U{FF10}' <= c <= '\U{FF19}' then Some(c as int - 0xFF10)
    else None
  }

  /** `str.isdigit()` for one character: every decimal digit and, beyond them,
      the superscript and subscript digits, which `int()` refuses. */
  predicate IsDigit(c: char) {
    || DecimalValue(c).Some?
    || c == '\U{B2}' || c == '\U{B3}' || c == '\U{B9}' || c == '\U{2070}'
    || '\U{2074}' <= c <= '\U{2079}'
    || '\U{2080}' <= c <= '\U{2089}'
  }

  /** `s.isdigit()`: not empty, and every character a digit. */
  predicate IsDigits(s: string) {
    |s| > 0 && forall i :: 0 <= i < |s| ==> IsDigit(s[i])
  }

  /** `s.isdecimal()`: not empty, and every character a decimal digit. */
  predicate IsDecimal(s: string) {
    |s| > 0 && forall i :: 0 <= i < |s| ==> DecimalValue(s[i]).Some?
  }

  /** `int(s)` for a string without sign, spaces or underscores: the decimal
      value of its digits, or `None` where Python raises `ValueError`. */
  function ParseInt(s: string): (r: Option<nat>)
    decreases |s|
  {
    if s == [] then None
    else
      var last := DecimalValue(s[|s| - 1]);
      if last.None? then None
      else if |s| == 1 then last
      else
        match ParseInt(s[..|s| - 1])
        case None => None
        case Some(high) => Some(10 * high + last.value)
  }

  /** A decimal string is also a digit string, and `int()` reads it. */
  lemma {:induction false} DecimalParses(s: string)
    requires IsDecimal(s)
    ensures IsDigits(s) && ParseInt(s).Some?
  {
    if |s| > 1 {
      DecimalParses(s[..|s| - 1]);
    }
  }

  /** `int()` refuses every string that holds a character outside the
      decimal digits. */
  lemma {:induction false} ParseIntNeedsDecimal(s: string)
    requires ParseInt(s).Some?
    ensures IsDecimal(s)
  {
    if |s| > 1 {
      ParseIntNeedsDecimal(s[..|s| - 1]);
      assert forall i :: 0 <= i < |s| - 1 ==> s[i] == s[..|s| - 1][i];
    }
  }
}
