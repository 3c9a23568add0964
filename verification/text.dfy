/** The few `java.lang.String` queries the validators use. A Dafny `char` is a
    Unicode scalar value, whereas a Java `String` is a sequence of UTF-16 code
    units, so lengths are counted in code units explicitly. */
module Text {

  /** `Character.isWhitespace` for one code point: the ASCII controls TAB..CR and
      FS..US, and the Unicode space, line and paragraph separators except the
      non-breaking ones (U+00A0, U+2007, U+202F). */
  predicate IsWhitespace(c: char) {
    || c == ' '
    || '\t' <= c <= '\r'
    || '\U{001C}' <= c <= '\U{001F}'
    || c == '\U{1680}'
    || '\U{2000}' <= c <= '\U{2006}'
    || '\U{2008}' <= c <= '\U{200A}'
    || c == '\U{2028}'
    || c == '\U{2029}'
    || c == '\U{205F}'
    || c == '\U{3000}'
  }

  /** `String.isBlank`: empty, or nothing but whitespace. */
  predicate IsBlank(s: string) {
    forall i :: 0 <= i < |s| ==> IsWhitespace(s[i])
  }

  /** The edges of the whitespace set: the non-breaking spaces, the next-line
      control U+0085 and the controls just outside TAB..CR are not whitespace. */
  lemma WhitespaceBoundaries()
    ensures IsWhitespace(' ') && IsWhitespace('\t') && IsWhitespace('\r')
    ensures IsWhitespace('\U{001F}') && IsWhitespace('\U{2028}') && IsWhitespace('\U{3000}')
    ensures !IsWhitespace('\U{0008}') && !IsWhitespace('\U{000E}') && !IsWhitespace('\U{0085}')
    ensures !IsWhitespace('\U{00A0}') && !IsWhitespace('\U{2007}') && !IsWhitespace('\U{202F}')
  {
  }

  /** A concatenation is blank exactly when both parts are; the empty string is
      blank, a non-breaking space is not. */
  lemma BlankConcat(a: string, b: string)
    ensures IsBlank(a + b) <==> IsBlank(a) && IsBlank(b)
    ensures IsBlank("") && !IsBlank("\U{00A0}")
  {
    if IsBlank(a + b) {
      forall i | 0 <= i < |a| ensures IsWhitespace(a[i]) {
        assert a[i] == (a + b)[i];
      }
      forall i | 0 <= i < |b| ensures IsWhitespace(b[i]) {
        assert b[i] == (a + b)[|a| + i];
      }
    }
    assert "\U{00A0}"[0] == '\U{00A0}';
  }

  /** Number of UTF-16 code units that encode `c`. */
  function CodeUnits(c: char): nat {
    if c as int > 0xFFFF then 2 else 1
  }

  /** `String.length()`: the length in UTF-16 code units. */
  function Utf16Length(s: string): (n: nat)
    ensures |s| <= n <= 2 * |s|
    ensures (forall i :: 0 <= i < |s| ==> s[i] as int <= 0xFFFF) ==> n == |s|
    ensures |s| == 1 ==> n == CodeUnits(s[0])
  {
    if s == [] then 0 else CodeUnits(s[0]) + Utf16Length(s[1..])
  }

  /** The code-unit length of a concatenation is the sum of the parts' lengths,
      so a string's length is the sum of its characters' code units. */
  lemma {:induction false} Utf16LengthConcat(a: string, b: string)
    ensures Utf16Length(a + b) == Utf16Length(a) + Utf16Length(b)
  {
    if a == [] {
      assert a + b == b;
    } else {
      assert (a + b)[1..] == a[1..] + b;
      Utf16LengthConcat(a[1..], b);
    }
  }

  /** A character outside the Basic Multilingual Plane counts two code units. */
  lemma SupplementaryCountsTwo()
    ensures Utf16Length("\U{1F600}") == 2
    ensures Utf16Length("a\U{1F600}") == 3
  {
  }
}
