/** The JavaScript string operations the components rely on:
    `toLowerCase`, `includes`, `localeCompare` and `Array.prototype.join`. */
module JsString {

  /** `toLowerCase` on one code unit. Only ASCII letters are mapped. */
  function LowerChar(c: char): char
  {
    if 'A' <= c <= 'Z' then (c as int + 32) as char else c
  }

  /** `s.toLowerCase()`, code unit by code unit. */
  function ToLower(s: string): (r: string)
    ensures |r| == |s|
    ensures forall i :: 0 <= i < |s| ==> r[i] == LowerChar(s[i])
  {
    if s == [] then [] else [LowerChar(s[0])] + ToLower(s[1..])
  }

  /** `haystack.includes(needle)`: try every start position from the left. */
  function Includes(haystack: string, needle: string): bool
  {
    if needle <= haystack then true
    else if haystack == [] then false
    else Includes(haystack[1..], needle)
  }

  /** `needle` occurs in `haystack` starting at index `i`. */
  ghost predicate OccursAt(haystack: string, needle: string, i: int)
  {
    0 <= i && i + |needle| <= |haystack| && haystack[i..i + |needle|] == needle
  }

  lemma {:induction false} OccursImpliesIncludes(haystack: string, needle: string, i: int)
    requires OccursAt(haystack, needle, i)
    ensures Includes(haystack, needle)
    decreases i
  {
    if i > 0 {
      assert haystack[1..][i - 1..i - 1 + |needle|] == haystack[i..i + |needle|];
      OccursImpliesIncludes(haystack[1..], needle, i - 1);
    }
  }

  lemma {:induction false} IncludesImpliesOccurs(haystack: string, needle: string)
    requires Includes(haystack, needle)
    ensures exists i :: OccursAt(haystack, needle, i)
  {
    if needle <= haystack {
      assert OccursAt(haystack, needle, 0);
    } else {
      IncludesImpliesOccurs(haystack[1..], needle);
      var i :| OccursAt(haystack[1..], needle, i);
      assert haystack[1..][i..i + |needle|] == haystack[i + 1..i + 1 + |needle|];
      assert OccursAt(haystack, needle, i + 1);
    }
  }

  /** `needle` occurs somewhere in `haystack`. */
  ghost predicate Occurs(haystack: string, needle: string)
  {
    exists i :: OccursAt(haystack, needle, i)
  }

  /** `includes` is exactly substring occurrence; the empty string occurs everywhere. */
  lemma IncludesIffOccurs(haystack: string, needle: string)
    ensures Includes(haystack, needle) <==> Occurs(haystack, needle)
    ensures needle == [] ==> Includes(haystack, needle)
  {
    if Includes(haystack, needle) {
      IncludesImpliesOccurs(haystack, needle);
    }
    forall i | OccursAt(haystack, needle, i) ensures Includes(haystack, needle) {
      OccursImpliesIncludes(haystack, needle, i);
    }
  }

  /** `a.localeCompare(b)`, with the collation fixed to lexicographic
      code-unit order: negative, zero or positive. */
  function LocaleCompare(a: string, b: string): (r: int)
    ensures -1 <= r <= 1
  {
    if a == [] && b == [] then 0
    else if a == [] then -1
    else if b == [] then 1
    else if a[0] < b[0] then -1
    else if b[0] < a[0] then 1
    else LocaleCompare(a[1..], b[1..])
  }

  /** Swapping the operands negates the comparison. */
  lemma {:induction false} LocaleCompareAntisymmetric(a: string, b: string)
    ensures LocaleCompare(b, a) == -LocaleCompare(a, b)
  {
    if a != [] && b != [] && a[0] == b[0] {
      LocaleCompareAntisymmetric(a[1..], b[1..]);
    }
  }

  /** Only equal strings compare as zero. */
  lemma {:induction false} LocaleCompareZero(a: string, b: string)
    ensures LocaleCompare(a, b) == 0 <==> a == b
  {
    if a != [] && b != [] && a[0] == b[0] {
      LocaleCompareZero(a[1..], b[1..]);
      assert a == [a[0]] + a[1..] && b == [b[0]] + b[1..];
    }
  }

  /** "Not after" is transitive. */
  lemma {:induction false} LocaleCompareTransitive(a: string, b: string, c: string)
    requires LocaleCompare(a, b) <= 0 && LocaleCompare(b, c) <= 0
    ensures LocaleCompare(a, c) <= 0
  {
    if a != [] && b != [] && c != [] && a[0] == b[0] == c[0] {
      LocaleCompareTransitive(a[1..], b[1..], c[1..]);
    }
  }

  /** `parts.join(sep)`. */
  function Join(parts: seq<string>, sep: string): string
  {
    if |parts| == 0 then ""
    else if |parts| == 1 then parts[0]
    else parts[0] + sep + Join(parts[1..], sep)
  }

  /** Every part occurs in the joined string. */
  lemma {:induction false} JoinContainsParts(parts: seq<string>, sep: string, k: nat)
    requires k < |parts|
    ensures Occurs(Join(parts, sep), parts[k])
  {
    var j := Join(parts, sep);
    if |parts| == 1 {
      assert j[0..|parts[k]|] == parts[k];
      assert OccursAt(j, parts[k], 0);
    } else if k == 0 {
      assert j == parts[0] + (sep + Join(parts[1..], sep));
      assert j[0..|parts[0]|] == parts[0];
      assert OccursAt(j, parts[k], 0);
    } else {
      JoinContainsParts(parts[1..], sep, k - 1);
      var rest := Join(parts[1..], sep);
      var i :| OccursAt(rest, parts[k], i);
      var off := |parts[0]| + |sep|;
      assert j == (parts[0] + sep) + rest;
      assert j[off + i..off + i + |parts[k]|] == rest[i..i + |parts[k]|];
      assert OccursAt(j, parts[k], off + i);
    }
  }

  /** With two or more parts the separator shows up in the joined string. */
  lemma JoinShowsSeparator(parts: seq<string>, sep: string)
    ensures |parts| >= 2 ==> Occurs(Join(parts, sep), sep)
  {
    if |parts| >= 2 {
      var j := Join(parts, sep);
      assert j == parts[0] + sep + Join(parts[1..], sep);
      assert j[|parts[0]|..|parts[0]| + |sep|] == sep;
      assert OccursAt(j, sep, |parts[0]|);
    }
  }
}
