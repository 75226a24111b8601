/**
 * ASCII models of the Python string operations both scripts are built from:
 * the `re` character classes `\s`, `\d` and `\w`, `str.upper`, the `in`
 * operator on strings, `strip`, `split()` without a separator, `join` and
 * `replace`.
 */
module Strings {

  /** `\s` and `str.isspace` on ASCII: space, TAB, LF, VT, FF, CR and the separators 0x1C-0x1F. */
  predicate IsSpace(c: char) {
    var n := c as int;
    n == 32 || 9 <= n <= 13 || 28 <= n <= 31
  }

  predicate NotSpace(c: char) { !IsSpace(c) }

  predicate IsDigit(c: char) { '0' <= c <= '9' }

  predicate IsLowerLetter(c: char) { 'a' <= c <= 'z' }

  predicate IsUpperLetter(c: char) { 'A' <= c <= 'Z' }

  /** `\w` on ASCII: letters, digits and the underscore. */
  predicate IsWordChar(c: char) {
    IsLowerLetter(c) || IsUpperLetter(c) || IsDigit(c) || c == '_'
  }

  /** `str.upper` on one ASCII character. */
  function UpperChar(c: char): (u: char)
    ensures !IsLowerLetter(u)
    ensures IsWordChar(u) <==> IsWordChar(c)
    ensures IsSpace(u) <==> IsSpace(c)
    ensures IsDigit(u) <==> IsDigit(c)
  {
    if IsLowerLetter(c) then (c as int - 32) as char else c
  }

  /** `str.lower` on one ASCII character. */
  function LowerChar(c: char): (l: char)
    ensures UpperChar(l) == UpperChar(c)
  {
    if IsUpperLetter(c) then (c as int + 32) as char else c
  }

  /** `str.upper()` */
  function Upper(s: string): string
  {
    seq(|s|, i requires 0 <= i < |s| => UpperChar(s[i]))
  }

  /** `str.lower()` */
  function Lower(s: string): string
  {
    seq(|s|, i requires 0 <= i < |s| => LowerChar(s[i]))
  }

  /** `s.startswith(p)` */
  predicate StartsWith(s: string, p: string) {
    |p| <= |s| && s[..|p|] == p
  }

  predicate OccursAt(s: string, sub: string, i: int) {
    0 <= i <= |s| - |sub| && s[i..i + |sub|] == sub
  }

  /** Python's `sub in s`. */
  predicate Contains(s: string, sub: string) {
    exists i | 0 <= i <= |s| - |sub| :: OccursAt(s, sub, i)
  }

  /** The number of leading characters of `s` that satisfy `p`. */
  function LeadingCount(s: string, p: char -> bool): (n: nat)
    ensures n <= |s|
    ensures forall i :: 0 <= i < n ==> p(s[i])
    ensures n < |s| ==> !p(s[n])
  {
    if |s| > 0 && p(s[0]) then 1 + LeadingCount(s[1..], p) else 0
  }

  /** The number of trailing characters of `s` that satisfy `p`. */
  function TrailingCount(s: string, p: char -> bool): (n: nat)
    ensures n <= |s|
    ensures forall i :: |s| - n <= i < |s| ==> p(s[i])
    ensures n < |s| ==> !p(s[|s| - 1 - n])
  {
    if |s| > 0 && p(s[|s| - 1]) then 1 + TrailingCount(s[..|s| - 1], p) else 0
  }

  /** `str.strip()`: drops leading and trailing whitespace. */
  function Strip(s: string): (r: string)
    ensures |r| <= |s|
    ensures |r| > 0 ==> !IsSpace(r[0]) && !IsSpace(r[|r| - 1])
    ensures exists i, j ::
              0 <= i <= j <= |s| && r == s[i..j] &&
              (forall k :: 0 <= k < i ==> IsSpace(s[k])) && (forall k :: j <= k < |s| ==> IsSpace(s[k]))
  {
    var n := LeadingCount(s, IsSpace);
    var t := s[n..];
    var j := |s| - TrailingCount(t, IsSpace);
    assert forall k :: j <= k < |s| ==> s[k] == t[k - n];
    s[n..j]
  }

  predicate NoSpace(w: string) {
    forall i :: 0 <= i < |w| ==> !IsSpace(w[i])
  }

  /** `str.split()` without a separator: the maximal runs of non-whitespace, in order. */
  function Split(s: string): (words: seq<string>)
    decreases |s|
    ensures forall k :: 0 <= k < |words| ==> |words[k]| > 0 && NoSpace(words[k])
  {
    if |s| == 0 then []
    else if IsSpace(s[0]) then Split(s[1..])
    else
      var n := LeadingCount(s, NotSpace);
      [s[..n]] + Split(s[n..])
  }

  /** The characters of `s` that are not whitespace, in order. */
  function NonSpaceChars(s: string): string
  {
    if |s| == 0 then ""
    else (if IsSpace(s[0]) then "" else [s[0]]) + NonSpaceChars(s[1..])
  }

  /** `"".join(words)` */
  function Concat(words: seq<string>): string
  {
    if |words| == 0 then "" else words[0] + Concat(words[1..])
  }

  /** `sep.join(parts)` */
  function Join(sep: string, parts: seq<string>): string
  {
    if |parts| == 0 then ""
    else if |parts| == 1 then parts[0]
    else parts[0] + sep + Join(sep, parts[1..])
  }

  /** `s.replace(from, to)` for single characters. */
  function ReplaceChar(s: string, from: char, to: char): string
  {
    seq(|s|, i requires 0 <= i < |s| => if s[i] == from then to else s[i])
  }

  /** `s.replace(c, '')` */
  function RemoveChar(s: string, c: char): (r: string)
    ensures |r| <= |s|
  {
    if |s| == 0 then ""
    else (if s[0] == c then "" else [s[0]]) + RemoveChar(s[1..], c)
  }

  predicate NotNewline(c: char) { c != '\n' }

  /** `s.split('\n')[0]` */
  function FirstLine(s: string): (r: string)
    ensures '\n' !in r
  {
    var n := LeadingCount(s, NotNewline);
    assert forall i :: 0 <= i < n ==> s[..n][i] != '\n';
    s[..n]
  }

  // ---------------------------------------------------------------------
  // Facts about these operations
  // ---------------------------------------------------------------------

  lemma UpperIdempotent(s: string)
    ensures Upper(Upper(s)) == Upper(s)
  {
  }

  lemma UpperOfLower(s: string)
    ensures Upper(Lower(s)) == Upper(s)
  {
  }

  lemma UpperConcat(a: string, b: string)
    ensures Upper(a + b) == Upper(a) + Upper(b)
  {
  }

  /** A string without lower-case letters is its own upper-case form. */
  lemma UpperOfUpperCase(s: string)
    requires forall i :: 0 <= i < |s| ==> !IsLowerLetter(s[i])
    ensures Upper(s) == s
  {
  }

  lemma ContainsIntro(s: string, sub: string, i: int)
    requires OccursAt(s, sub, i)
    ensures Contains(s, sub)
  {
  }

  /** An occurrence stays an occurrence when text is added on either side. */
  lemma ContainsInConcat(a: string, sub: string, b: string, c: string)
    requires Contains(b, sub)
    ensures Contains(a + b + c, sub)
  {
    var i :| 0 <= i <= |b| - |sub| && OccursAt(b, sub, i);
    assert (a + b + c)[|a| + i..|a| + i + |sub|] == b[i..i + |sub|];
    ContainsIntro(a + b + c, sub, |a| + i);
  }

  /** A string cannot contain a substring that has a character it lacks. */
  lemma AbsentCharNotContained(s: string, sub: string, c: char)
    requires c in sub && c !in s
    ensures !Contains(s, sub)
  {
  }

  /** Upper-casing a character cannot create a letter out of a non-letter. */
  lemma ContainsUpperLetter(s: string, sub: string, j: int)
    requires Contains(Upper(s), sub) && 0 <= j < |sub| && IsUpperLetter(sub[j])
    ensures exists i :: 0 <= i < |s| && (IsUpperLetter(s[i]) || IsLowerLetter(s[i]))
  {
    var k :| 0 <= k <= |Upper(s)| - |sub| && OccursAt(Upper(s), sub, k);
    assert Upper(s)[k + j] == sub[j];
  }

  /** A prefix of characters satisfying `p`, followed by one that does not, is the leading run. */
  lemma {:induction false} LeadingCountConcat(a: string, b: string, p: char -> bool)
    requires forall i :: 0 <= i < |a| ==> p(a[i])
    requires |b| > 0 ==> !p(b[0])
    ensures LeadingCount(a + b, p) == |a|
  {
    if |a| > 0 {
      assert (a + b)[1..] == a[1..] + b;
      LeadingCountConcat(a[1..], b, p);
    } else {
      assert a + b == b;
    }
  }

  /** Stripping only removes characters. */
  lemma StripChars(s: string, x: char)
    requires x in Strip(s)
    ensures x in s
  {
    var t := s[LeadingCount(s, IsSpace)..];
    var i :| 0 <= i < |Strip(s)| && Strip(s)[i] == x;
    assert t[i] == x;
  }

  lemma StripOfStripped(s: string)
    requires |s| > 0 ==> !IsSpace(s[0]) && !IsSpace(s[|s| - 1])
    ensures Strip(s) == s
  {
  }

  lemma StripIdempotent(s: string)
    ensures Strip(Strip(s)) == Strip(s)
  {
    StripOfStripped(Strip(s));
  }

  /** Stripping keeps every character that is not whitespace. */
  lemma StripKeepsNonSpace(s: string, i: int)
    requires 0 <= i < |s| && !IsSpace(s[i])
    ensures s[i] in Strip(s)
  {
    var lead := LeadingCount(s, IsSpace);
    var t := s[lead..];
    var trail := TrailingCount(t, IsSpace);
    assert lead <= i;
    assert t[i - lead] == s[i];
    assert i - lead < |t| - trail;
    assert Strip(s)[i - lead] == s[i];
  }

  /** A stripped string that is empty came from whitespace only. */
  lemma StripEmptyOnlySpace(s: string, i: int)
    requires Strip(s) == "" && 0 <= i < |s|
    ensures IsSpace(s[i])
  {
    if !IsSpace(s[i]) {
      StripKeepsNonSpace(s, i);
    }
  }

  /** Removing a character leaves only other characters of the original. */
  lemma RemoveCharChars(s: string, c: char, x: char)
    requires x in RemoveChar(s, c)
    ensures x != c && x in s
  {
    if |s| > 0 && x !in RemoveChar(s[1..], c) {
      assert RemoveChar(s, c) == (if s[0] == c then "" else [s[0]]) + RemoveChar(s[1..], c);
    } else if |s| > 0 {
      RemoveCharChars(s[1..], c, x);
    }
  }

  /** Removing a character keeps every other character. */
  lemma RemoveCharKeeps(s: string, c: char, i: int)
    requires 0 <= i < |s| && s[i] != c
    ensures s[i] in RemoveChar(s, c)
  {
    if i > 0 {
      RemoveCharKeeps(s[1..], c, i - 1);
    }
  }

  lemma RemoveAbsentChar(s: string, c: char)
    requires c !in s
    ensures RemoveChar(s, c) == s
  {
  }

  lemma {:induction false} RemoveCharConcat(a: string, b: string, c: char)
    ensures RemoveChar(a + b, c) == RemoveChar(a, c) + RemoveChar(b, c)
  {
    if |a| > 0 {
      assert (a + b)[1..] == a[1..] + b;
      RemoveCharConcat(a[1..], b, c);
    } else {
      assert a + b == b;
    }
  }

  lemma {:induction false} NonSpaceCharsConcat(a: string, b: string)
    ensures NonSpaceChars(a + b) == NonSpaceChars(a) + NonSpaceChars(b)
  {
    if |a| > 0 {
      assert (a + b)[1..] == a[1..] + b;
      NonSpaceCharsConcat(a[1..], b);
    } else {
      assert a + b == b;
    }
  }

  lemma {:induction false} NonSpaceCharsOfWord(w: string)
    requires NoSpace(w)
    ensures NonSpaceChars(w) == w
  {
    if |w| > 0 {
      NonSpaceCharsOfWord(w[1..]);
      assert w == [w[0]] + w[1..];
    }
  }

  /**
   * `split()` loses nothing but whitespace: its words, put back together,
   * are exactly the characters of `s` that are not whitespace, in order.
   */
  lemma {:induction false} SplitKeepsNonSpaceChars(s: string)
    ensures Concat(Split(s)) == NonSpaceChars(s)
    decreases |s|
  {
    if |s| > 0 {
      if IsSpace(s[0]) {
        SplitKeepsNonSpaceChars(s[1..]);
      } else {
        var n := LeadingCount(s, NotSpace);
        var word := s[..n];
        SplitKeepsNonSpaceChars(s[n..]);
        assert s == word + s[n..];
        NonSpaceCharsConcat(word, s[n..]);
        assert NoSpace(word);
        NonSpaceCharsOfWord(word);
        assert ([word] + Split(s[n..]))[1..] == Split(s[n..]);
      }
    }
  }

  /**
   * Whitespace separates words: splitting at a whitespace character splits
   * the two sides independently. With `SplitOfWord` and `Split("") == []`
   * this fixes every word boundary.
   */
  lemma {:induction false} SplitAtSpace(a: string, c: char, b: string)
    requires IsSpace(c)
    ensures Split(a + [c] + b) == Split(a) + Split(b)
    decreases |a|
  {
    var s := a + [c] + b;
    if |a| == 0 {
      assert s[1..] == b;
    } else if IsSpace(a[0]) {
      assert s[1..] == a[1..] + [c] + b;
      SplitAtSpace(a[1..], c, b);
    } else {
      var n := LeadingCount(s, NotSpace);
      var m := LeadingCount(a, NotSpace);
      assert s[|a|] == c;
      LeadingCountOfPrefix(s, a, NotSpace);
      assert n == m;
      assert s[..n] == a[..m];
      assert s[n..] == a[m..] + [c] + b;
      SplitAtSpace(a[m..], c, b);
      assert Split(s) == [a[..m]] + (Split(a[m..]) + Split(b));
    }
  }

  /** A leading run that ends inside a prefix is the prefix's leading run. */
  lemma LeadingCountOfPrefix(s: string, a: string, p: char -> bool)
    requires |a| < |s| && s[..|a|] == a && !p(s[|a|])
    ensures LeadingCount(s, p) == LeadingCount(a, p)
  {
    assert LeadingCount(s, p) <= |a|;
  }

  /** A non-empty string without whitespace is a single word. */
  lemma SplitOfWord(w: string)
    requires |w| > 0 && NoSpace(w)
    ensures Split(w) == [w]
  {
    var n := LeadingCount(w, NotSpace);
    assert n == |w|;
    assert w[..n] == w;
    assert Split(w[n..]) == [];
  }

  lemma JoinSingleton(sep: string, w: string)
    ensures Join(sep, [w]) == w
  {
  }

  /** Joining one more part appends the separator and that part. */
  lemma {:induction false} JoinSnoc(sep: string, parts: seq<string>, w: string)
    requires |parts| > 0
    ensures Join(sep, parts + [w]) == Join(sep, parts) + sep + w
  {
    if |parts| == 1 {
      assert parts + [w] == [parts[0], w];
      assert (parts + [w])[1..] == [w];
    } else {
      assert (parts + [w])[1..] == parts[1..] + [w];
      JoinSnoc(sep, parts[1..], w);
    }
  }

  /** The joined string starts with the first part. */
  lemma JoinStartsWithFirst(sep: string, parts: seq<string>)
    requires |parts| > 0
    ensures exists rest :: Join(sep, parts) == parts[0] + rest
  {
    if |parts| == 1 {
      assert Join(sep, parts) == parts[0] + "";
    } else {
      assert Join(sep, parts) == parts[0] + (sep + Join(sep, parts[1..]));
    }
  }

  /** Python's `" ".join(...)` of non-empty parts is empty only when there are no parts. */
  lemma {:induction false} JoinNonEmpty(sep: string, parts: seq<string>)
    requires |parts| > 0 && |parts[0]| > 0
    ensures |Join(sep, parts)| > 0
  {
    JoinStartsWithFirst(sep, parts);
  }
}
