/** PHP string built-ins used by the route analyzer: `strpos(...) !== false`,
    the sign of `strcmp`, `str_replace` of single characters and `ucwords`.
    A PHP string is a byte string; here it is a `string`, and characters are
    compared by code point, which orders UTF-8 text exactly as a byte-wise
    `strcmp` does. */
module PhpStrings {

  /** `strpos($haystack, $needle) !== false`. */
  predicate Contains(haystack: string, needle: string)
    decreases |haystack|
  {
    if |needle| > |haystack| then false
    else if haystack[..|needle|] == needle then true
    else |haystack| > 0 && Contains(haystack[1..], needle)
  }

  /** `needle` occurs in `haystack` at offset `i`. */
  predicate OccursAt(haystack: string, needle: string, i: int) {
    0 <= i && i + |needle| <= |haystack| && haystack[i..i + |needle|] == needle
  }

  /** The needle occurs at some offset of the haystack. */
  lemma {:induction false} ContainsIff(haystack: string, needle: string)
    ensures Contains(haystack, needle) <==> exists i :: OccursAt(haystack, needle, i)
    decreases |haystack|
  {
    if |needle| > |haystack| {
    } else if haystack[..|needle|] == needle {
      assert OccursAt(haystack, needle, 0);
    } else if |haystack| == 0 {
    } else {
      var tail := haystack[1..];
      ContainsIff(tail, needle);
      if Contains(tail, needle) {
        var i :| OccursAt(tail, needle, i);
        assert haystack[i + 1..i + 1 + |needle|] == tail[i..i + |needle|];
        assert OccursAt(haystack, needle, i + 1);
      }
      if exists i :: OccursAt(haystack, needle, i) {
        var i :| OccursAt(haystack, needle, i);
        assert i != 0;
        assert tail[i - 1..i - 1 + |needle|] == haystack[i..i + |needle|];
        assert OccursAt(tail, needle, i - 1);
      }
    }
  }

  /** `strcmp($a, $b) < 0`: byte-wise lexicographic order, a proper prefix
      sorting first. */
  predicate StrLess(a: string, b: string)
    decreases |a|
  {
    if |a| == 0 then |b| > 0
    else if |b| == 0 then false
    else if a[0] != b[0] then a[0] < b[0]
    else StrLess(a[1..], b[1..])
  }

  lemma {:induction false} StrLessIrreflexive(a: string)
    ensures !StrLess(a, a)
    decreases |a|
  {
    if |a| > 0 {
      StrLessIrreflexive(a[1..]);
    }
  }

  lemma {:induction false} StrLessTransitive(a: string, b: string, c: string)
    requires StrLess(a, b) && StrLess(b, c)
    ensures StrLess(a, c)
    decreases |a|
  {
    if |a| > 0 && a[0] == b[0] && b[0] == c[0] {
      StrLessTransitive(a[1..], b[1..], c[1..]);
    }
  }

  /** `strcmp` is a total order: exactly one of `<`, `==`, `>` holds. */
  lemma {:induction false} StrLessTrichotomy(a: string, b: string)
    ensures StrLess(a, b) || a == b || StrLess(b, a)
    ensures !(StrLess(a, b) && StrLess(b, a))
    decreases |a|
  {
    if |a| > 0 && |b| > 0 && a[0] == b[0] {
      StrLessTrichotomy(a[1..], b[1..]);
      if a[1..] == b[1..] {
        assert a == [a[0]] + a[1..] && b == [b[0]] + b[1..];
      }
    }
  }

  /** The characters `ucwords` treats as word separators by default. */
  predicate IsWordDelimiter(c: char) {
    c == ' ' || c == '\t' || c == '\r' || c == '\n' || c == '\U{000C}' || c == '\U{000B}'
  }

  /** ASCII `toupper`. */
  function UpperAscii(c: char): (u: char)
    ensures IsWordDelimiter(u) <==> IsWordDelimiter(c)
    ensures 'a' <= c <= 'z' ==> 'A' <= u <= 'Z' && u as int == c as int - 32
    ensures !('a' <= c <= 'z') ==> u == c
  {
    if 'a' <= c <= 'z' then (c as int - 32) as char else c
  }

  /** `ucwords` on `s`, where `capitalize` says whether the character before
      `s` ended a word (true at the start of the whole string). */
  function UcWordsFrom(s: string, capitalize: bool): (r: string)
    ensures |r| == |s|
    ensures forall i :: 0 <= i < |s| ==>
      r[i] == (if (i == 0 && capitalize) || (i > 0 && IsWordDelimiter(s[i - 1])) then UpperAscii(s[i]) else s[i])
    decreases |s|
  {
    if |s| == 0 then []
    else [if capitalize then UpperAscii(s[0]) else s[0]] + UcWordsFrom(s[1..], IsWordDelimiter(s[0]))
  }

  /** `ucwords($s)`: the first character and every character that follows a
      delimiter are upper-cased; nothing else changes. */
  function UcWords(s: string): (r: string)
    ensures |r| == |s|
    ensures forall i :: 0 <= i < |s| ==>
      r[i] == (if i == 0 || IsWordDelimiter(s[i - 1]) then UpperAscii(s[i]) else s[i])
  {
    UcWordsFrom(s, true)
  }

  /** Applying `ucwords` twice changes nothing more. */
  lemma UcWordsIdempotent(s: string)
    ensures UcWords(UcWords(s)) == UcWords(s)
  {
    var r := UcWords(s);
    forall k | 0 <= k < |s|
      ensures IsWordDelimiter(r[k]) <==> IsWordDelimiter(s[k])
    {
      if k > 0 {
        assert r[k] == if IsWordDelimiter(s[k - 1]) then UpperAscii(s[k]) else s[k];
      }
    }
    forall i | 0 <= i < |s|
      ensures UcWords(r)[i] == r[i]
    {
      if i > 0 {
        assert r[i] == if IsWordDelimiter(s[i - 1]) then UpperAscii(s[i]) else s[i];
        assert UcWords(r)[i] == if IsWordDelimiter(r[i - 1]) then UpperAscii(r[i]) else r[i];
      }
    }
  }
}
