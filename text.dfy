/**
 * Character and string helpers shared by the synergy engine, the audit
 * dictionary generator and the record normaliser.
 *
 * JavaScript's `toLowerCase`, `toUpperCase`, `normalize("NFD")` followed by
 * removal of the combining marks U+0300..U+036F, `trim`, `\s` and
 * `String.prototype.includes` are modelled here. Case mapping and accent
 * stripping are exact for ASCII and for the accented letters of Spanish and
 * Catalan; every other character is left unchanged.
 */
module Text {

  // ---------------------------------------------------------------------
  // Characters
  // ---------------------------------------------------------------------

  /** A Unicode combining diacritical mark (the range NFD splits accents into). */
  predicate IsCombiningMark(c: char) {
    '\U{0300}' <= c <= '\U{036F}'
  }

  /** Accented upper-case letters whose case and accent the model maps. */
  predicate IsUpperAccented(c: char) {
    c == 'Á' || c == 'À' || c == 'Ä' || c == 'É' || c == 'È' || c == 'Ë'
    || c == 'Í' || c == 'Ì' || c == 'Ï' || c == 'Ó' || c == 'Ò' || c == 'Ö'
    || c == 'Ú' || c == 'Ù' || c == 'Ü' || c == 'Ñ' || c == 'Ç'
  }

  /** Accented lower-case letters whose case and accent the model maps. */
  predicate IsLowerAccented(c: char) {
    c == 'á' || c == 'à' || c == 'ä' || c == 'é' || c == 'è' || c == 'ë'
    || c == 'í' || c == 'ì' || c == 'ï' || c == 'ó' || c == 'ò' || c == 'ö'
    || c == 'ú' || c == 'ù' || c == 'ü' || c == 'ñ' || c == 'ç'
  }

  /** One character of `toLowerCase`: ASCII and the accented letters above. */
  function LowerChar(c: char): (d: char)
    ensures 'A' <= c <= 'Z' ==> d as int == c as int + 32
    ensures !('A' <= c <= 'Z') && !IsUpperAccented(c) ==> d == c
  {
    if 'A' <= c <= 'Z' then (c as int + 32) as char
    else if c == 'Á' then 'á' else if c == 'À' then 'à' else if c == 'Ä' then 'ä'
    else if c == 'É' then 'é' else if c == 'È' then 'è' else if c == 'Ë' then 'ë'
    else if c == 'Í' then 'í' else if c == 'Ì' then 'ì' else if c == 'Ï' then 'ï'
    else if c == 'Ó' then 'ó' else if c == 'Ò' then 'ò' else if c == 'Ö' then 'ö'
    else if c == 'Ú' then 'ú' else if c == 'Ù' then 'ù' else if c == 'Ü' then 'ü'
    else if c == 'Ñ' then 'ñ' else if c == 'Ç' then 'ç'
    else c
  }

  /** One character of `toUpperCase`: ASCII and the accented letters above. */
  function UpperChar(c: char): (d: char)
    ensures 'a' <= c <= 'z' ==> d as int == c as int - 32
    ensures !('a' <= c <= 'z') && !IsLowerAccented(c) ==> d == c
  {
    if 'a' <= c <= 'z' then (c as int - 32) as char
    else if c == 'á' then 'Á' else if c == 'à' then 'À' else if c == 'ä' then 'Ä'
    else if c == 'é' then 'É' else if c == 'è' then 'È' else if c == 'ë' then 'Ë'
    else if c == 'í' then 'Í' else if c == 'ì' then 'Ì' else if c == 'ï' then 'Ï'
    else if c == 'ó' then 'Ó' else if c == 'ò' then 'Ò' else if c == 'ö' then 'Ö'
    else if c == 'ú' then 'Ú' else if c == 'ù' then 'Ù' else if c == 'ü' then 'Ü'
    else if c == 'ñ' then 'Ñ' else if c == 'ç' then 'Ç'
    else c
  }

  /** The base letter NFD leaves in front of the combining mark of an accented letter. */
  function BaseLetter(c: char): (d: char)
    ensures !IsLowerAccented(c) && !IsUpperAccented(c) ==> d == c
    ensures !IsLowerAccented(d) && !IsUpperAccented(d)
  {
    if !IsLowerAccented(c) && !IsUpperAccented(c) then c
    else if c == 'á' then 'a' else if c == 'à' then 'a' else if c == 'ä' then 'a'
    else if c == 'é' then 'e' else if c == 'è' then 'e' else if c == 'ë' then 'e'
    else if c == 'í' then 'i' else if c == 'ì' then 'i' else if c == 'ï' then 'i'
    else if c == 'ó' then 'o' else if c == 'ò' then 'o' else if c == 'ö' then 'o'
    else if c == 'ú' then 'u' else if c == 'ù' then 'u' else if c == 'ü' then 'u'
    else if c == 'ñ' then 'n' else if c == 'ç' then 'c'
    else if c == 'Á' then 'A' else if c == 'À' then 'A' else if c == 'Ä' then 'A'
    else if c == 'É' then 'E' else if c == 'È' then 'E' else if c == 'Ë' then 'E'
    else if c == 'Í' then 'I' else if c == 'Ì' then 'I' else if c == 'Ï' then 'I'
    else if c == 'Ó' then 'O' else if c == 'Ò' then 'O' else if c == 'Ö' then 'O'
    else if c == 'Ú' then 'U' else if c == 'Ù' then 'U' else if c == 'Ü' then 'U'
    else if c == 'Ñ' then 'N' else if c == 'Ç' then 'C'
    else c
  }

  /** The characters JavaScript's `\s` and `String.prototype.trim` treat as white space. */
  predicate IsSpace(c: char) {
    c == ' ' || c == '\t' || c == '\n' || c == '\U{000B}' || c == '\U{000C}' || c == '\r'
    || c == '\U{00A0}' || c == '\U{1680}' || ('\U{2000}' <= c <= '\U{200A}')
    || c == '\U{2028}' || c == '\U{2029}' || c == '\U{202F}' || c == '\U{205F}'
    || c == '\U{3000}' || c == '\U{FEFF}'
  }

  // ---------------------------------------------------------------------
  // Whole strings
  // ---------------------------------------------------------------------

  /** `s.toLowerCase()` */
  function Lower(s: string): (r: string)
    ensures |r| == |s|
    ensures forall i :: 0 <= i < |s| ==> r[i] == LowerChar(s[i])
  {
    seq(|s|, i requires 0 <= i < |s| => LowerChar(s[i]))
  }

  /** `s.toUpperCase()` */
  function Upper(s: string): (r: string)
    ensures |r| == |s|
    ensures forall i :: 0 <= i < |s| ==> r[i] == UpperChar(s[i])
  {
    seq(|s|, i requires 0 <= i < |s| => UpperChar(s[i]))
  }

  /** `s.normalize("NFD").replace(/[̀-ͯ]/g, "")` */
  function StripAccents(s: string): (r: string)
    ensures |r| <= |s|
    ensures forall c :: c in r ==> !IsCombiningMark(c) && !IsLowerAccented(c) && !IsUpperAccented(c)
  {
    if s == [] then []
    else if IsCombiningMark(s[0]) then StripAccents(s[1..])
    else [BaseLetter(s[0])] + StripAccents(s[1..])
  }

  /** Accent-stripping of each character in place, for text without combining marks. */
  function MapBase(s: string): (r: string)
    ensures |r| == |s|
    ensures forall i :: 0 <= i < |s| ==> r[i] == BaseLetter(s[i])
  {
    seq(|s|, i requires 0 <= i < |s| => BaseLetter(s[i]))
  }

  /** Text that holds no combining mark loses no character to accent stripping. */
  lemma {:induction false} StripAccentsNoMarks(s: string)
    requires forall i :: 0 <= i < |s| ==> !IsCombiningMark(s[i])
    ensures StripAccents(s) == MapBase(s)
  {
    if s != [] {
      StripAccentsNoMarks(s[1..]);
      assert MapBase(s) == [BaseLetter(s[0])] + MapBase(s[1..]);
    }
  }

  /** Plain ASCII text has no accents to strip. */
  lemma {:induction false} StripAccentsAscii(s: string)
    requires forall i :: 0 <= i < |s| ==> s[i] < '\U{0080}'
    ensures StripAccents(s) == s
  {
    StripAccentsNoMarks(s);
    assert MapBase(s) == s;
  }

  /** Every character of `Upper(s)` is outside 'a'..'z'. */
  lemma {:induction false} UpperHasNoLowerAscii(s: string, c: char)
    requires 'a' <= c <= 'z'
    ensures c !in Upper(s)
  {
    forall i | 0 <= i < |s| ensures Upper(s)[i] != c {
      assert Upper(s)[i] == UpperChar(s[i]);
    }
  }

  /** `s.trimEnd()` */
  function TrimEnd(s: string): (r: string)
    ensures r <= s
    ensures r == [] || !IsSpace(r[|r| - 1])
    ensures forall i :: |r| <= i < |s| ==> IsSpace(s[i])
  {
    if s == [] || !IsSpace(s[|s| - 1]) then s else TrimEnd(s[..|s| - 1])
  }

  /** `s.trimStart()` */
  function TrimStart(s: string): (r: string)
    ensures |r| <= |s| && r == s[|s| - |r|..]
    ensures r == [] || !IsSpace(r[0])
    ensures forall i :: 0 <= i < |s| - |r| ==> IsSpace(s[i])
  {
    if s == [] || !IsSpace(s[0]) then s else TrimStart(s[1..])
  }

  /** `s.trim()` */
  function Trim(s: string): (r: string)
    ensures |r| <= |s|
    ensures r == [] || (!IsSpace(r[0]) && !IsSpace(r[|r| - 1]))
  {
    TrimStart(TrimEnd(s))
  }

  /** The trimmed text is a slice of the original, starting at `a`. */
  lemma {:induction false} TrimSlice(s: string) returns (a: nat)
    ensures a + |Trim(s)| <= |s| && Trim(s) == s[a..a + |Trim(s)|]
  {
    var e := TrimEnd(s);
    var t := TrimStart(e);
    assert Trim(s) == t;
    a := |e| - |t|;
    assert t == e[a..];
    PrefixSlice(e, s, a);
    assert a + |t| == |e|;
  }

  /** A slice of a prefix is the same slice of the whole. */
  lemma {:induction false} PrefixSlice(e: string, s: string, a: nat)
    requires e <= s && a <= |e|
    ensures e[a..] == s[a..|e|]
  {
    assert e == s[..|e|];
  }

  /** Text with no space at either end is left as it is. */
  lemma {:induction false} TrimKeeps(s: string)
    requires s == [] || (!IsSpace(s[0]) && !IsSpace(s[|s| - 1]))
    ensures Trim(s) == s
  {
  }

  // ---------------------------------------------------------------------
  // Substring search
  // ---------------------------------------------------------------------

  predicate StartsWith(s: string, prefix: string) {
    |prefix| <= |s| && s[..|prefix|] == prefix
  }

  /** `s.includes(key)` */
  predicate Contains(s: string, key: string)
    decreases |s|
  {
    StartsWith(s, key) || (s != [] && Contains(s[1..], key))
  }

  /** `key` occurs in `s` at position `i`. */
  predicate OccursAt(s: string, key: string, i: int) {
    0 <= i && i + |key| <= |s| && s[i..i + |key|] == key
  }

  lemma {:induction false} ContainsIffOccurs(s: string, key: string)
    ensures Contains(s, key) <==> exists i :: OccursAt(s, key, i)
    decreases |s|
  {
    if StartsWith(s, key) {
      assert OccursAt(s, key, 0);
    } else if s == [] {
      assert |key| > 0;
    } else {
      ContainsIffOccurs(s[1..], key);
      forall i | OccursAt(s, key, i) ensures OccursAt(s[1..], key, i - 1) {
        assert i != 0 by { assert s[..|key|] == s[0..0 + |key|]; }
        assert s[1..][i - 1..i - 1 + |key|] == s[i..i + |key|];
      }
      if exists j :: OccursAt(s[1..], key, j) {
        var j :| OccursAt(s[1..], key, j);
        assert s[1..][j..j + |key|] == s[j + 1..j + 1 + |key|];
        assert OccursAt(s, key, j + 1);
      }
    }
  }

  /** A witness position proves containment. */
  lemma {:induction false} ContainsAt(s: string, key: string, i: int)
    requires OccursAt(s, key, i)
    ensures Contains(s, key)
  {
    ContainsIffOccurs(s, key);
  }

  /** A string that lacks one of the characters of `key` does not contain `key`. */
  lemma {:induction false} NotContainsMissingChar(s: string, key: string, c: char)
    requires c in key && c !in s
    ensures !Contains(s, key)
  {
    ContainsIffOccurs(s, key);
    var k :| 0 <= k < |key| && key[k] == c;
    forall i | 0 <= i && i + |key| <= |s| ensures !OccursAt(s, key, i) {
      assert s[i..i + |key|][k] == s[i + k] != c;
    }
  }

  /** Every string contains the empty string (`s.includes("")` is true). */
  lemma {:induction false} ContainsEmpty(s: string)
    ensures Contains(s, "")
  {
    assert StartsWith(s, "");
  }

  /** First index of `c` in `s` (`s.indexOf(c)`), or -1. */
  function IndexOf(s: string, c: char): (r: int)
    ensures -1 <= r < |s|
    ensures r == -1 <==> c !in s
    ensures r >= 0 ==> s[r] == c && c !in s[..r]
  {
    if s == [] then -1
    else if s[0] == c then 0
    else var k := IndexOf(s[1..], c);
      assert s[1..][..if k < 0 then 0 else k] == s[1..if k < 0 then 1 else k + 1];
      if k == -1 then -1 else k + 1
  }

  // ---------------------------------------------------------------------
  // Code-point order of strings (JavaScript's default `sort()` order)
  // ---------------------------------------------------------------------

  /** `a` sorts no later than `b` in lexicographic code-point order. */
  predicate StrLeq(a: string, b: string)
    decreases |a|
  {
    a == [] || (b != [] && (a[0] < b[0] || (a[0] == b[0] && StrLeq(a[1..], b[1..]))))
  }

  predicate StrLt(a: string, b: string) {
    StrLeq(a, b) && a != b
  }

  lemma {:induction false} StrLeqTotal(a: string, b: string)
    ensures StrLeq(a, b) || StrLeq(b, a)
    decreases |a|
  {
    if a != [] && b != [] && a[0] == b[0] {
      StrLeqTotal(a[1..], b[1..]);
    }
  }

  lemma {:induction false} StrLeqTransitive(a: string, b: string, c: string)
    requires StrLeq(a, b) && StrLeq(b, c)
    ensures StrLeq(a, c)
    decreases |a|
  {
    if a != [] && a[0] == b[0] && b[0] == c[0] {
      StrLeqTransitive(a[1..], b[1..], c[1..]);
    }
  }

  lemma {:induction false} StrLeqAntisymmetric(a: string, b: string)
    requires StrLeq(a, b) && StrLeq(b, a)
    ensures a == b
    decreases |a|
  {
    if a != [] {
      StrLeqAntisymmetric(a[1..], b[1..]);
      assert a == [a[0]] + a[1..] && b == [b[0]] + b[1..];
    }
  }

  // ---------------------------------------------------------------------
  // Small conversions
  // ---------------------------------------------------------------------

  /** Decimal representation of an integer, as `${n}` writes it. */
  function IntToString(n: int): (r: string)
    ensures r != []
    decreases if n < 0 then -n + 1 else n
  {
    if n < 0 then "-" + IntToString(-n)
    else if n < 10 then [('0' as int + n) as char]
    else IntToString(n / 10) + [('0' as int + n % 10) as char]
  }

  /** Elements joined with a separator (`array.join(sep)`). */
  function Join(parts: seq<string>, sep: string): string
  {
    if parts == [] then ""
    else if |parts| == 1 then parts[0]
    else parts[0] + sep + Join(parts[1..], sep)
  }
}
