/** The few JavaScript string operations the client relies on, over `seq<char>`. */
module Strings {

  /** ASCII case folding, as `toLowerCase` does on tag names. */
  function LowerChar(c: char): char {
    if 'A' <= c <= 'Z' then (c as int + 32) as char else c
  }

  function Lower(s: string): (r: string)
    ensures |r| == |s|
    ensures forall i :: 0 <= i < |s| ==> r[i] == LowerChar(s[i])
  {
    if s == [] then [] else [LowerChar(s[0])] + Lower(s[1..])
  }

  /** `parts.join(sep)` */
  function Join(parts: seq<string>, sep: string): string {
    if |parts| == 0 then ""
    else if |parts| == 1 then parts[0]
    else parts[0] + sep + Join(parts[1..], sep)
  }

  /** Joining a non-empty first part in front of a list either stands alone or adds one separator. */
  lemma {:induction false} JoinCons(p: string, rest: seq<string>, sep: string)
    requires rest == [] || rest[0] != ""
    ensures Join([p] + rest, sep) == p + (if Join(rest, sep) != "" then sep + Join(rest, sep) else "")
  {
    assert ([p] + rest)[1..] == rest;
    if rest != [] {
      if |rest| == 1 {
        assert Join(rest, sep) == rest[0];
      } else {
        assert Join(rest, sep) == rest[0] + sep + Join(rest[1..], sep);
      }
      assert Join(rest, sep)[0] == rest[0][0];
    }
  }

  predicate StartsWith(s: string, prefix: string) {
    |prefix| <= |s| && s[..|prefix|] == prefix
  }

  /** `s.includes(t)` */
  predicate Contains(s: string, t: string) {
    StartsWith(s, t) || (s != [] && Contains(s[1..], t))
  }

  /** The white space that `String.prototype.trim` strips (the ASCII and common Unicode ones). */
  predicate IsSpace(c: char) {
    c == ' ' || c == '\t' || c == '\n' || c == '\r' || c == '\U{B}' || c == '\U{C}'
    || c == '\U{A0}' || c == '\U{2028}' || c == '\U{2029}' || c == '\U{FEFF}'
    || c == '\U{1680}' || ('\U{2000}' <= c <= '\U{200A}') || c == '\U{202F}' || c == '\U{205F}'
    || c == '\U{3000}'
  }

  function TrimStart(s: string): (r: string)
    ensures |r| <= |s| && r == s[|s| - |r|..]
    ensures r == [] || !IsSpace(r[0])
    ensures |s| > 0 && !IsSpace(s[0]) ==> r == s
  {
    if |s| > 0 && IsSpace(s[0]) then TrimStart(s[1..]) else s
  }

  function TrimEnd(s: string): (r: string)
    ensures |r| <= |s| && r == s[..|r|]
    ensures r == [] || !IsSpace(r[|r| - 1])
    ensures forall i :: |r| <= i < |s| ==> IsSpace(s[i])
  {
    if |s| > 0 && IsSpace(s[|s| - 1]) then TrimEnd(s[..|s| - 1]) else s
  }

  /** `s.trim()` */
  function Trim(s: string): string {
    TrimEnd(TrimStart(s))
  }

  /** Trimming never eats into a leading word that has no white space in it. */
  lemma TrimKeepsLeadingWord(w: string, rest: string)
    requires w != [] && forall i :: 0 <= i < |w| ==> !IsSpace(w[i])
    ensures StartsWith(Trim(w + rest), w)
  {
    var s := w + rest;
    assert s[0] == w[0];
    var t := TrimStart(s);
    assert t == s;
    var r := TrimEnd(t);
    assert s[|w| - 1] == w[|w| - 1];
    assert r[..|w|] == s[..|w|] == w;
  }

  /** Decimal rendering of a natural number, as string concatenation does. */
  function NatToString(n: nat): (r: string)
    ensures r != []
    ensures forall i :: 0 <= i < |r| ==> '0' <= r[i] <= '9'
  {
    if n < 10 then [Digit(n)] else NatToString(n / 10) + [Digit(n % 10)]
  }

  function Digit(d: nat): (c: char)
    requires d < 10
    ensures '0' <= c <= '9'
  {
    ('0' as int + d) as char
  }

  /** `s.split(sep)[0]` for a one-character separator: everything before its first occurrence. */
  function BeforeFirst(s: string, sep: char): (r: string)
    ensures StartsWith(s, r)
    ensures sep !in r
    ensures |r| < |s| ==> s[|r|] == sep
    ensures sep !in s ==> r == s
  {
    if s == [] then []
    else if s[0] == sep then []
    else [s[0]] + BeforeFirst(s[1..], sep)
  }

  /** `s.split(sep)[1]` for a one-character separator that occurs in `s`. */
  function SecondField(s: string, sep: char): (r: string)
    requires sep in s
    ensures sep !in r
  {
    var head := BeforeFirst(s, sep);
    BeforeFirst(s[|head| + 1..], sep)
  }

  /** Putting a prefix ending in the separator in front of a field and splitting it off again
      gives the field back. */
  lemma {:induction false} SecondFieldRoundTrip(tag: string, field: string, sep: char)
    requires sep !in tag && sep !in field
    ensures sep in tag + [sep] + field
    ensures SecondField(tag + [sep] + field, sep) == field
  {
    var s := tag + [sep] + field;
    assert s[|tag|] == sep;
    BeforeFirstSkips(tag, [sep] + field, sep);
    assert s == tag + ([sep] + field);
    assert BeforeFirst(s, sep) == tag;
    assert s[|tag| + 1..] == field;
  }

  lemma {:induction false} BeforeFirstSkips(a: string, b: string, sep: char)
    requires sep !in a && b != [] && b[0] == sep
    ensures BeforeFirst(a + b, sep) == a
  {
    if a != [] {
      assert (a + b)[1..] == a[1..] + b;
      BeforeFirstSkips(a[1..], b, sep);
    } else {
      assert a + b == b;
    }
  }
}
