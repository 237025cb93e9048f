/**
 * The string primitives the source relies on: the JavaScript regular-expression class `\s`,
 * `String.prototype.toLowerCase` (for ASCII letters and the capitals of Spanish) and
 * `String.prototype.includes`.
 */
module Text {

  /** A character of the JavaScript class `\s` (white space and line terminators). */
  predicate IsSpace(c: char) {
    || c == ' ' || c == '\t' || c == '\n' || c == '\r'
    || c == '\U{000B}' || c == '\U{000C}' || c == '\U{00A0}' || c == '\U{1680}'
    || ('\U{2000}' <= c <= '\U{200A}')
    || c == '\U{2028}' || c == '\U{2029}' || c == '\U{202F}' || c == '\U{205F}'
    || c == '\U{3000}' || c == '\U{FEFF}'
  }

  /** The capitals whose lower-case form is modelled. */
  predicate IsUpper(c: char) {
    || ('A' <= c <= 'Z')
    || c == 'Á' || c == 'É' || c == 'Í' || c == 'Ó' || c == 'Ú' || c == 'Ñ' || c == 'Ü'
  }

  /** The lower-case form of one character; characters other than the modelled capitals are kept. */
  function ToLowerChar(c: char): (r: char)
    ensures !IsUpper(r)
    ensures !IsUpper(c) ==> r == c
    ensures IsSpace(r) <==> IsSpace(c)
    ensures 'A' <= c <= 'Z' ==> r as int == c as int + 32
    ensures c == 'Á' ==> r == 'á'
    ensures c == 'É' ==> r == 'é'
    ensures c == 'Í' ==> r == 'í'
    ensures c == 'Ó' ==> r == 'ó'
    ensures c == 'Ú' ==> r == 'ú'
    ensures c == 'Ñ' ==> r == 'ñ'
    ensures c == 'Ü' ==> r == 'ü'
  {
    if 'A' <= c <= 'Z' then (c as int + 32) as char
    else match c
      case 'Á' => 'á'
      case 'É' => 'é'
      case 'Í' => 'í'
      case 'Ó' => 'ó'
      case 'Ú' => 'ú'
      case 'Ñ' => 'ñ'
      case 'Ü' => 'ü'
      case _ => c
  }

  /** `s.toLowerCase()`. */
  function ToLower(s: string): (r: string)
    ensures |r| == |s|
    ensures forall i :: 0 <= i < |r| ==> !IsUpper(r[i])
    ensures forall i :: 0 <= i < |s| && !IsUpper(s[i]) ==> r[i] == s[i]
    ensures forall i :: 0 <= i < |s| ==> r[i] == ToLowerChar(s[i])
  {
    seq(|s|, i requires 0 <= i < |s| => ToLowerChar(s[i]))
  }

  /** Lower-casing twice is lower-casing once. */
  lemma ToLowerIdempotent(s: string)
    ensures ToLower(ToLower(s)) == ToLower(s)
  {
  }

  /** `n` occurs in `h` starting at index `i`. */
  predicate OccursAt(h: string, n: string, i: int) {
    0 <= i && i + |n| <= |h| && h[i..i + |n|] == n
  }

  /** `h.includes(n)`: tries each start position from the left. */
  predicate Contains(h: string, n: string)
    decreases |h|
  {
    if |n| > |h| then false
    else if h[..|n|] == n then true
    else Contains(h[1..], n)
  }

  /** `Contains` is the substring relation; the empty string occurs in every string. */
  lemma {:induction false} ContainsIsSubstring(h: string, n: string)
    ensures Contains(h, n) <==> exists i :: OccursAt(h, n, i)
    decreases |h|
  {
    if |n| > |h| {
      assert forall i :: !OccursAt(h, n, i);
    } else if h[..|n|] == n {
      assert OccursAt(h, n, 0);
    } else {
      ContainsIsSubstring(h[1..], n);
      forall i | OccursAt(h[1..], n, i)
        ensures OccursAt(h, n, i + 1)
      {
        assert h[1..][i..i + |n|] == h[i + 1..i + 1 + |n|];
      }
      forall i | OccursAt(h, n, i)
        ensures i >= 1 && OccursAt(h[1..], n, i - 1)
      {
        assert i != 0;
        assert h[1..][i - 1..i - 1 + |n|] == h[i..i + |n|];
      }
    }
  }
}
