/**
 * `normalize_text` of scripts/finalize_mapping.py: the key both the census
 * table and the ward boundaries are joined on. A name is upper-cased, looked
 * up in a table of known spelling fixes, stripped of administrative class
 * words and of a leading list number, has its punctuation turned into spaces
 * and its whitespace collapsed to single spaces.
 */
module NameNormalizer {
  import opened Strings

  /** Boundary-file spelling mapped to the census spelling (lines 8-16). */
  const NameOverrides: map<string, string> := map[
    "NGHAHELEZE" := "NGAHELEZE",
    "USA RIVER" := "USA-RIVER",
    "OLOIRIEN/MAGAIDURU" := "OLOIRIEN MAGAIDURU",
    "OLOIRIEN / MAGAIDURU" := "OLOIRIEN MAGAIDURU",
    "VIWANJA SITINI" := "VIWANJASITINI",
    "MATALE" := "MATALE A",
    "KIHANGIMAHUKA" := "KIHANGI MAHUKA"
  ]

  /** The administrative class words removed as whole words (line 24). */
  const ClassWords: seq<string> :=
    ["DISTRICT", "COUNCIL", "TOWN", "CITY", "MUNICIPAL", "HALMASHAURI", "WILAYA", "YA", "WA", "LA"]

  /** The override lookup on the exact upper-cased name (lines 21-22). */
  function ApplyOverride(u: string): string
  {
    if u in NameOverrides then NameOverrides[u] else u
  }

  /**
   * `re.sub(r"\b(DISTRICT|...|LA)\b", "", text)`. A match must begin and end
   * on a word boundary, so it is always a whole maximal run of word
   * characters; such a run is deleted exactly when it is one of the class
   * words. Everything else, the surrounding spaces included, stays.
   */
  function RemoveClassWords(s: string): (r: string)
    ensures |r| <= |s|
    decreases |s|
  {
    if |s| == 0 then ""
    else if IsWordChar(s[0]) then
      var n := LeadingCount(s, IsWordChar);
      (if s[..n] in ClassWords then "" else s[..n]) + RemoveClassWords(s[n..])
    else [s[0]] + RemoveClassWords(s[1..])
  }

  predicate IsSpaceOrDot(c: char) { IsSpace(c) || c == '.' }

  /** `re.sub(r"^\d+[\s\.]+", "", text)`: one leading list number and the separator after it. */
  function StripLeadingIndex(s: string): (r: string)
    ensures |r| <= |s|
  {
    var d := LeadingCount(s, IsDigit);
    var m := LeadingCount(s[d..], IsSpaceOrDot);
    if d > 0 && m > 0 then s[d + m..] else s
  }

  predicate IsWordOrSpace(c: char) { IsWordChar(c) || IsSpace(c) }

  /** `re.sub(r"[^\w\s]", " ", text)` */
  function PunctuationToSpace(s: string): (r: string)
    ensures |r| == |s|
    ensures forall i :: 0 <= i < |r| ==> IsWordOrSpace(r[i])
  {
    seq(|s|, i requires 0 <= i < |s| => if IsWordOrSpace(s[i]) then s[i] else ' ')
  }

  /** `" ".join(text.split())` */
  function CollapseWhitespace(s: string): string
  {
    Join(" ", Split(s))
  }

  /** `normalize_text` on a string. */
  function NormalizeText(text: string): (key: string)
    ensures text == "" ==> key == ""
  {
    if text == "" then ""
    else
      var u := ApplyOverride(Upper(text));
      CollapseWhitespace(PunctuationToSpace(StripLeadingIndex(RemoveClassWords(u))))
  }

  // ---------------------------------------------------------------------
  // The shape of a key
  // ---------------------------------------------------------------------

  predicate DoubleSpaceAt(k: string, i: int) {
    0 <= i < |k| - 1 && k[i] == ' ' && k[i + 1] == ' '
  }

  /**
   * What a key looks like: word characters and single spaces only, with no
   * space at either end.
   */
  predicate IsCanonicalKey(k: string) {
    (forall i :: 0 <= i < |k| ==> IsWordChar(k[i]) || k[i] == ' ') &&
    (|k| > 0 ==> k[0] != ' ' && k[|k| - 1] != ' ') &&
    forall i | 0 <= i < |k| :: !DoubleSpaceAt(k, i)
  }

  predicate AllWordChars(w: string) {
    forall i :: 0 <= i < |w| ==> IsWordChar(w[i])
  }

  /** The words of a string of word characters and whitespace consist of word characters. */
  lemma {:induction false} SplitOfWordsAndSpaces(s: string)
    requires forall i :: 0 <= i < |s| ==> IsWordOrSpace(s[i])
    ensures forall k :: 0 <= k < |Split(s)| ==> AllWordChars(Split(s)[k])
    decreases |s|
  {
    if |s| > 0 {
      if IsSpace(s[0]) {
        SplitOfWordsAndSpaces(s[1..]);
      } else {
        var n := LeadingCount(s, NotSpace);
        SplitOfWordsAndSpaces(s[n..]);
        assert Split(s) == [s[..n]] + Split(s[n..]);
        assert AllWordChars(s[..n]) by {
          forall i | 0 <= i < n ensures IsWordChar(s[..n][i]) {
            assert s[..n][i] == s[i] && !IsSpace(s[i]) && IsWordOrSpace(s[i]);
          }
        }
      }
    }
  }

  /** Non-empty words of word characters joined by single spaces form a key. */
  lemma {:induction false} JoinedWordsCanonical(words: seq<string>)
    requires forall k :: 0 <= k < |words| ==> |words[k]| > 0 && AllWordChars(words[k])
    ensures IsCanonicalKey(Join(" ", words))
  {
    if |words| == 1 {
      JoinSingleton(" ", words[0]);
    } else if |words| > 1 {
      var w := words[0];
      var rest := Join(" ", words[1..]);
      JoinedWordsCanonical(words[1..]);
      JoinNonEmpty(" ", words[1..]);
      var k := Join(" ", words);
      assert k == w + " " + rest;
      assert forall i :: 0 <= i < |w| ==> k[i] == w[i];
      assert k[|w|] == ' ';
      assert forall i :: |w| < i < |k| ==> k[i] == rest[i - |w| - 1];
      forall i | 0 <= i < |k|
        ensures !DoubleSpaceAt(k, i)
      {
        if |w| < i < |k| - 1 {
          assert !DoubleSpaceAt(rest, i - |w| - 1);
        }
      }
    }
  }

  /**
   * Lines 19 and 26-27: a key is made of word characters and single spaces,
   * with no space at either end; the empty name gives the empty key.
   */
  lemma NormalizedKeyIsCanonical(text: string)
    ensures IsCanonicalKey(NormalizeText(text))
  {
    if text != "" {
      var u := ApplyOverride(Upper(text));
      var p := PunctuationToSpace(StripLeadingIndex(RemoveClassWords(u)));
      SplitOfWordsAndSpaces(p);
      JoinedWordsCanonical(Split(p));
    }
  }

  // ---------------------------------------------------------------------
  // Which names share a key
  // ---------------------------------------------------------------------

  /** Line 20: names that agree once upper-cased share a key. */
  lemma SameUpperSameKey(a: string, b: string)
    requires Upper(a) == Upper(b)
    ensures NormalizeText(a) == NormalizeText(b)
  {
    assert |a| == |Upper(a)| == |Upper(b)| == |b|;
  }

  /** Normalisation ignores case: a name and its lower-case form share a key. */
  lemma CaseInsensitive(a: string)
    ensures NormalizeText(Lower(a)) == NormalizeText(a)
  {
    UpperOfLower(a);
    SameUpperSameKey(Lower(a), a);
  }

  /**
   * Lines 21-22: a name the override table maps onto the upper-cased form of
   * another name, which is not itself overridden, shares that name's key.
   */
  lemma OverrideSharesKey(a: string, b: string)
    requires Upper(a) in NameOverrides && NameOverrides[Upper(a)] == Upper(b)
    requires Upper(b) !in NameOverrides && b != ""
    ensures NormalizeText(a) == NormalizeText(b)
  {
    assert |Upper(a)| == |a|;
  }

  /** Every override maps an upper-case name to a different, upper-case name that is not overridden again. */
  lemma OverrideTableShape(k: string)
    requires k in NameOverrides
    ensures k != "" && Upper(k) == k
    ensures NameOverrides[k] != "" && Upper(NameOverrides[k]) == NameOverrides[k]
    ensures NameOverrides[k] !in NameOverrides
  {
    OverrideKeyUpperCase(k);
    OverrideValueUpperCase(k);
    OverrideValueNotKey(k);
  }

  lemma OverrideKeyUpperCase(k: string)
    requires k in NameOverrides
    ensures k != "" && Upper(k) == k
  {
    UpperOfUpperCase(k);
  }

  lemma OverrideValueUpperCase(k: string)
    requires k in NameOverrides
    ensures NameOverrides[k] != "" && Upper(NameOverrides[k]) == NameOverrides[k]
  {
    UpperOfUpperCase(NameOverrides[k]);
  }

  lemma OverrideValueNotKey(k: string)
    requires k in NameOverrides
    ensures NameOverrides[k] !in NameOverrides
  {
  }

  /** Lines 8-22: each boundary-file spelling in the table shares its key with the census spelling. */
  lemma OverridePairsShareKey(k: string)
    requires k in NameOverrides
    ensures NormalizeText(k) == NormalizeText(NameOverrides[k])
  {
    OverrideTableShape(k);
    OverrideSharesKey(k, NameOverrides[k]);
  }

  // ---------------------------------------------------------------------
  // Plain words and class words through the chain
  // ---------------------------------------------------------------------

  /** What class-word removal leaves of one maximal word run. */
  function KeptRun(w: string): string
  {
    if w in ClassWords then "" else w
  }

  /** A whole run of word characters is deleted exactly when it is a class word. */
  lemma RemoveClassWordsRun(w: string, rest: string)
    requires |w| > 0 && AllWordChars(w) && (|rest| > 0 ==> !IsWordChar(rest[0]))
    ensures RemoveClassWords(w + rest) == KeptRun(w) + RemoveClassWords(rest)
  {
    LeadingCountConcat(w, rest, IsWordChar);
    assert (w + rest)[..|w|] == w && (w + rest)[|w|..] == rest;
  }

  lemma RemoveClassWordsOther(c: char, rest: string)
    requires !IsWordChar(c)
    ensures RemoveClassWords([c] + rest) == [c] + RemoveClassWords(rest)
  {
    assert ([c] + rest)[1..] == rest;
  }

  lemma SplitOfSpaces(s: string)
    requires forall i :: 0 <= i < |s| ==> IsSpace(s[i])
    ensures Split(s) == []
    decreases |s|
  {
    if |s| > 0 {
      SplitOfSpaces(s[1..]);
    }
  }

  /** A word followed by whitespace only splits into that word. */
  lemma SplitWordThenSpaces(w: string, spaces: string)
    requires |w| > 0 && NoSpace(w) && forall i :: 0 <= i < |spaces| ==> IsSpace(spaces[i])
    ensures Split(w + spaces) == [w]
  {
    LeadingCountConcat(w, spaces, NotSpace);
    assert (w + spaces)[..|w|] == w && (w + spaces)[|w|..] == spaces;
    SplitOfSpaces(spaces);
  }

  /** A word, a separator and a word split into the two words. */
  lemma SplitTwoWords(v: string, sep: char, w: string)
    requires |v| > 0 && NoSpace(v) && IsSpace(sep) && |w| > 0 && NoSpace(w)
    ensures Split(v + [sep] + w) == [v, w]
  {
    var s := v + [sep] + w;
    LeadingCountConcat(v, [sep] + w, NotSpace);
    assert s == v + ([sep] + w);
    assert s[..|v|] == v && s[|v|..] == [sep] + w;
    assert ([sep] + w)[1..] == w;
    SplitWordThenSpaces(w, "");
    assert w + "" == w;
  }

  lemma PunctuationToSpaceKeeps(s: string)
    requires forall i :: 0 <= i < |s| ==> IsWordOrSpace(s[i])
    ensures PunctuationToSpace(s) == s
  {
  }

  /** No key of the override table starts with a digit. */
  lemma DigitFirstNotOverridden(s: string)
    requires |s| > 0 && IsDigit(s[0])
    ensures s !in NameOverrides
  {
  }

  /** No key of the override table ends in an L. */
  lemma EndsInLNotOverridden(s: string)
    requires |s| > 0 && s[|s| - 1] == 'L'
    ensures s !in NameOverrides
  {
  }

  /** An upper-case word that is not a class word and does not start with a digit. */
  predicate PlainWord(w: string) {
    |w| > 0 && AllWordChars(w) && Upper(w) == w && w !in ClassWords && !IsDigit(w[0])
  }

  predicate IsNumber(n: string) {
    |n| > 0 && forall i :: 0 <= i < |n| ==> IsDigit(n[i])
  }

  lemma NumberIsWord(n: string)
    requires IsNumber(n)
    ensures AllWordChars(n) && n !in ClassWords
  {
    assert forall k :: 0 <= k < |ClassWords| ==> |ClassWords[k]| > 0 && IsUpperLetter(ClassWords[k][0]);
  }

  lemma UpperOfNumber(n: string)
    requires IsNumber(n)
    ensures Upper(n) == n
  {
  }

  /** Characters that are not word characters pass through class-word removal. */
  lemma {:induction false} RemoveClassWordsNonWord(sep: string, s: string)
    requires forall i :: 0 <= i < |sep| ==> !IsWordChar(sep[i])
    ensures RemoveClassWords(sep + s) == sep + RemoveClassWords(s)
  {
    if |sep| > 0 {
      RemoveClassWordsNonWord(sep[1..], s);
      assert sep + s == [sep[0]] + (sep[1..] + s);
      RemoveClassWordsOther(sep[0], sep[1..] + s);
      assert sep == [sep[0]] + sep[1..];
    } else {
      assert sep + s == s;
    }
  }

  /** An upper-case name the table does not override goes through the rest of the chain unchanged. */
  lemma KeyOfUpperName(name: string)
    requires name != "" && Upper(name) == name && name !in NameOverrides
    ensures NormalizeText(name) == CollapseWhitespace(PunctuationToSpace(StripLeadingIndex(RemoveClassWords(name))))
  {
  }

  /** A plain word followed by whitespace has the word as its key once class words are gone. */
  lemma PlainWordThenSpaces(w: string, spaces: string)
    requires PlainWord(w) && forall i :: 0 <= i < |spaces| ==> IsSpace(spaces[i])
    ensures CollapseWhitespace(PunctuationToSpace(StripLeadingIndex(w + spaces))) == w
  {
    var r := w + spaces;
    LeadingCountConcat("", r, IsDigit);
    assert "" + r == r;
    assert StripLeadingIndex(r) == r;
    PunctuationToSpaceKeeps(r);
    SplitWordThenSpaces(w, spaces);
    JoinSingleton(" ", w);
  }

  /** The steps after the override keep a plain word as it is. */
  lemma PlainWordKey(w: string)
    requires PlainWord(w)
    ensures RemoveClassWords(w) == w
    ensures CollapseWhitespace(PunctuationToSpace(StripLeadingIndex(w))) == w
  {
    RemoveClassWordsRun(w, "");
    assert w + "" == w;
    PlainWordThenSpaces(w, "");
  }

  /** A plain word that is not an override key is its own key. */
  lemma PlainWordIsOwnKey(w: string)
    requires PlainWord(w) && w !in NameOverrides
    ensures NormalizeText(w) == w
  {
    KeyOfUpperName(w);
    PlainWordKey(w);
  }

  /** The class words are non-empty upper-case words. */
  lemma ClassWordShape(c: string)
    requires c in ClassWords
    ensures |c| > 0 && AllWordChars(c) && Upper(c) == c
  {
    UpperOfUpperCase(c);
  }

  lemma UpperOfFourParts(a: string, b: string, c: string, d: string)
    requires Upper(a) == a && Upper(b) == b && Upper(c) == c && Upper(d) == d
    ensures Upper(a + b + c + d) == a + b + c + d
  {
    UpperConcat(a, b);
    UpperConcat(a + b, c);
    UpperConcat(a + b + c, d);
  }

  /** Two class words after a space each leave only the spaces. */
  lemma ClassWordsTail(c1: string, c2: string)
    requires c1 in ClassWords && c2 in ClassWords
    ensures RemoveClassWords(" " + (c1 + (" " + c2))) == "  "
  {
    ClassWordShape(c1);
    ClassWordShape(c2);
    RemoveClassWordsRun(c2, "");
    assert c2 + "" == c2;
    RemoveClassWordsNonWord(" ", c2);
    RemoveClassWordsRun(c1, " " + c2);
    RemoveClassWordsNonWord(" ", c1 + (" " + c2));
  }

  lemma TrailingWordsName(w: string, c1: string, c2: string)
    ensures w + " " + c1 + " " + c2 == w + (" " + (c1 + (" " + c2)))
  {
  }

  lemma TrailingClassWordsGone(w: string, c1: string, c2: string)
    requires PlainWord(w) && c1 in ClassWords && c2 in ClassWords
    ensures Upper(w + " " + c1 + " " + c2) == w + " " + c1 + " " + c2
    ensures RemoveClassWords(w + " " + c1 + " " + c2) == w + "  "
  {
    var tail := " " + (c1 + (" " + c2));
    TrailingWordsName(w, c1, c2);
    TrailingNameUpper(w, c1, c2);
    RemoveClassWordsRun(w, tail);
    ClassWordsTail(c1, c2);
  }

  lemma TrailingNameUpper(w: string, c1: string, c2: string)
    requires PlainWord(w) && c1 in ClassWords && c2 in ClassWords
    ensures Upper(w + " " + c1 + " " + c2) == w + " " + c1 + " " + c2
  {
    ClassWordShape(c1);
    ClassWordShape(c2);
    UpperOfFourParts(w, " ", c1, " " + c2);
    assert w + " " + c1 + " " + c2 == w + " " + c1 + (" " + c2);
  }

  /** A plain word followed by two class words normalises to the word alone. */
  lemma TrailingClassWordsRemoved(w: string, c1: string, c2: string)
    requires PlainWord(w) && c1 in ClassWords && c2 in ClassWords
    requires w + " " + c1 + " " + c2 !in NameOverrides
    ensures NormalizeText(w + " " + c1 + " " + c2) == w
  {
    TrailingClassWordsGone(w, c1, c2);
    KeyOfUpperName(w + " " + c1 + " " + c2);
    PlainWordThenSpaces(w, "  ");
  }

  /** Line 24: a plain word followed by " DISTRICT COUNCIL" normalises to the word. */
  lemma ClassWordsRemoved(w: string)
    requires PlainWord(w)
    ensures NormalizeText(w + " DISTRICT COUNCIL") == w
  {
    var name := w + " " + "DISTRICT" + " " + "COUNCIL";
    assert name == w + " DISTRICT COUNCIL";
    EndsInLNotOverridden(name);
    TrailingClassWordsRemoved(w, "DISTRICT", "COUNCIL");
  }

  /** Class-word removal and the list-number strip on a list number, its separator and a plain word. */
  lemma NumberedName(n: string, sep: string, w: string)
    requires IsNumber(n) && PlainWord(w) && |sep| > 0
    requires forall i :: 0 <= i < |sep| ==> IsSpaceOrDot(sep[i])
    ensures RemoveClassWords(n + sep + w) == n + sep + w
    ensures StripLeadingIndex(n + sep + w) == w
  {
    NumberIsWord(n);
    var name := n + sep + w;
    PlainWordKey(w);
    RemoveClassWordsNonWord(sep, w);
    assert name == n + (sep + w);
    RemoveClassWordsRun(n, sep + w);
    LeadingCountConcat(n, sep + w, IsDigit);
    LeadingCountConcat(sep, w, IsSpaceOrDot);
    assert name[|n|..] == sep + w;
    assert (sep + w)[|sep|..] == w;
  }

  /** Line 25: a list number, ". " and a plain word normalise to the word. */
  lemma LeadingIndexRemoved(n: string, w: string)
    requires IsNumber(n) && PlainWord(w)
    ensures NormalizeText(n + ". " + w) == w
  {
    var name := n + ". " + w;
    UpperOfNumber(n);
    UpperOfFourParts(n, ".", " ", w);
    assert name == n + "." + " " + w;
    DigitFirstNotOverridden(name);
    KeyOfUpperName(name);
    NumberedName(n, ". ", w);
    PlainWordKey(w);
  }

  /** A list number, a space and a plain word: class-word removal keeps it, and it keeps both words. */
  lemma NumberSpaceWord(n: string, w: string)
    requires IsNumber(n) && PlainWord(w)
    ensures RemoveClassWords(n + " " + w) == n + " " + w
    ensures CollapseWhitespace(PunctuationToSpace(n + " " + w)) == n + " " + w
  {
    NumberSpaceWordKept(n, w);
    NumberSpaceWordCollapsed(n, w);
  }

  lemma NumberSpaceWordKept(n: string, w: string)
    requires IsNumber(n) && PlainWord(w)
    ensures RemoveClassWords(n + " " + w) == n + " " + w
  {
    NumberIsWord(n);
    PlainWordKey(w);
    RemoveClassWordsNonWord(" ", w);
    assert n + " " + w == n + (" " + w);
    RemoveClassWordsRun(n, " " + w);
  }

  lemma NumberSpaceWordCollapsed(n: string, w: string)
    requires IsNumber(n) && PlainWord(w)
    ensures CollapseWhitespace(PunctuationToSpace(n + " " + w)) == n + " " + w
  {
    var once := n + " " + w;
    assert forall i :: 0 <= i < |once| ==> IsWordOrSpace(once[i]);
    PunctuationToSpaceKeeps(once);
    SplitTwoWords(n, ' ', w);
    assert n + [' '] + w == once;
    assert Join(" ", [n, w]) == n + " " + Join(" ", [w]);
    JoinSingleton(" ", w);
  }

  /** The second call: a list number, a space and a plain word lose the number. */
  lemma SecondPass(n: string, w: string)
    requires IsNumber(n) && PlainWord(w)
    ensures NormalizeText(n + " " + w) == w
  {
    var once := n + " " + w;
    UpperOfNumber(n);
    UpperOfFourParts(n, " ", w, "");
    assert once + "" == once;
    DigitFirstNotOverridden(once);
    KeyOfUpperName(once);
    NumberedName(n, " ", w);
    PlainWordKey(w);
  }

  /** The first call: a list number, ". " and a string of a number and a word lose the first number only. */
  lemma FirstPassStrip(m: string, once: string)
    requires IsNumber(m) && |once| > 0 && IsDigit(once[0])
    ensures StripLeadingIndex(m + (". " + once)) == once
  {
    var name := m + (". " + once);
    LeadingCountConcat(m, ". " + once, IsDigit);
    LeadingCountConcat(". ", once, IsSpaceOrDot);
    assert name[|m|..] == ". " + once;
    assert (". " + once)[2..] == once;
  }

  lemma FirstPassKept(m: string, once: string)
    requires IsNumber(m) && RemoveClassWords(once) == once
    ensures RemoveClassWords(m + (". " + once)) == m + (". " + once)
  {
    RemoveClassWordsNonWord(". ", once);
    NumberIsWord(m);
    RemoveClassWordsRun(m, ". " + once);
  }

  lemma FirstPass(m: string, n: string, w: string)
    requires IsNumber(m) && IsNumber(n) && PlainWord(w)
    ensures NormalizeText(m + (". " + (n + " " + w))) == n + " " + w
  {
    var once := n + " " + w;
    var name := m + (". " + once);
    UpperOfNumber(n);
    UpperOfNumber(m);
    UpperOfFourParts(n, " ", w, "");
    assert once + "" == once;
    UpperOfFourParts(m, ".", " ", once);
    assert name == m + "." + " " + once;
    DigitFirstNotOverridden(name);
    KeyOfUpperName(name);
    NumberSpaceWord(n, w);
    FirstPassKept(m, once);
    FirstPassStrip(m, once);
  }

  lemma TwoNumbersName(m: string, n: string, w: string)
    ensures m + ". " + n + " " + w == m + (". " + (n + " " + w))
  {
  }

  /**
   * Normalisation is not idempotent: "1. 2 X" gives "2 X", and "2 X" gives
   * "X", because one call removes one list number only. The same holds for
   * any two list numbers before a plain word.
   */
  lemma NotIdempotent(m: string, n: string, w: string)
    requires IsNumber(m) && IsNumber(n) && PlainWord(w)
    ensures NormalizeText(m + ". " + n + " " + w) == n + " " + w
    ensures NormalizeText(n + " " + w) == w
  {
    TwoNumbersName(m, n, w);
    FirstPass(m, n, w);
    SecondPass(n, w);
  }

  // ---------------------------------------------------------------------
  // Whitespace inside a name
  // ---------------------------------------------------------------------

  predicate AllSpaces(s: string) {
    forall i :: 0 <= i < |s| ==> IsSpace(s[i])
  }

  lemma UpperOfSpaces(s: string)
    requires AllSpaces(s)
    ensures Upper(s) == s
  {
  }

  lemma RemoveClassWordsSpaces(s: string)
    requires AllSpaces(s)
    ensures RemoveClassWords(s) == s
  {
    RemoveClassWordsNonWord(s, "");
    assert s + "" == s;
  }

  /** Leading whitespace contributes no word. */
  lemma {:induction false} SplitAfterSpaces(spaces: string, s: string)
    requires AllSpaces(spaces)
    ensures Split(spaces + s) == Split(s)
    decreases |spaces|
  {
    if |spaces| > 0 {
      assert spaces + s == "" + [spaces[0]] + (spaces[1..] + s);
      SplitAtSpace("", spaces[0], spaces[1..] + s);
      SplitAfterSpaces(spaces[1..], s);
    } else {
      assert spaces + s == s;
    }
  }

  /** A name that does not start with a digit has no list number to strip. */
  lemma NoLeadingDigit(s: string)
    requires |s| > 0 && !IsDigit(s[0])
    ensures StripLeadingIndex(s) == s
  {
  }

  lemma PlainWordNoSpace(w: string)
    requires PlainWord(w)
    ensures NoSpace(w)
  {
  }

  lemma JoinTwo(v: string, w: string)
    ensures Join(" ", [v, w]) == v + " " + w
  {
    assert [v, w][1..] == [w];
    JoinSingleton(" ", w);
  }

  lemma WordThenSpacesKept(w: string, tail: string)
    requires |w| > 0 && AllWordChars(w) && w !in ClassWords && AllSpaces(tail)
    ensures RemoveClassWords(w + tail) == w + tail
  {
    RemoveClassWordsSpaces(tail);
    RemoveClassWordsRun(w, tail);
  }

  lemma WordAfterSpacesKept(v: string, swt: string)
    requires |v| > 0 && AllWordChars(v) && v !in ClassWords
    requires RemoveClassWords(swt) == swt && (|swt| > 0 ==> IsSpace(swt[0]))
    ensures RemoveClassWords(v + swt) == v + swt
  {
    RemoveClassWordsRun(v, swt);
  }

  /** Class-word removal keeps two plain words around a whitespace run, and the whitespace after them. */
  lemma TwoPlainWordsKept(v: string, sep: string, w: string, tail: string)
    requires PlainWord(v) && PlainWord(w) && |sep| > 0 && AllSpaces(sep) && AllSpaces(tail)
    ensures RemoveClassWords(v + (sep + (w + tail))) == v + (sep + (w + tail))
  {
    WordThenSpacesKept(w, tail);
    RemoveClassWordsNonWord(sep, w + tail);
    WordAfterSpacesKept(v, sep + (w + tail));
  }

  /** A word followed by a whitespace run splits into the word and the words after the run. */
  lemma SplitWordSpacesRest(v: string, sep: string, rest: string)
    requires |v| > 0 && NoSpace(v) && |sep| > 0 && AllSpaces(sep)
    ensures Split(v + (sep + rest)) == [v] + Split(rest)
  {
    assert v + (sep + rest) == v + [sep[0]] + (sep[1..] + rest);
    SplitAtSpace(v, sep[0], sep[1..] + rest);
    SplitOfWord(v);
    SplitAfterSpaces(sep[1..], rest);
  }

  /** Two plain words, a whitespace run between them and whitespace after them split into the two words. */
  lemma TwoPlainWordsSplit(v: string, sep: string, w: string, tail: string)
    requires PlainWord(v) && PlainWord(w) && |sep| > 0 && AllSpaces(sep) && AllSpaces(tail)
    ensures Split(v + (sep + (w + tail))) == [v, w]
  {
    PlainWordNoSpace(v);
    PlainWordNoSpace(w);
    SplitWordSpacesRest(v, sep, w + tail);
    SplitWordThenSpaces(w, tail);
  }

  /**
   * Two plain words that no override names have the two words, joined by
   * one space, as their key, whatever whitespace separates and follows them.
   */
  lemma TwoPlainWordsKey(v: string, sep: string, w: string, tail: string)
    requires PlainWord(v) && PlainWord(w) && |sep| > 0 && AllSpaces(sep) && AllSpaces(tail)
    requires v + sep + w + tail !in NameOverrides
    ensures NormalizeText(v + sep + w + tail) == v + " " + w
  {
    var name := v + (sep + (w + tail));
    assert v + sep + w + tail == name;
    TwoPlainWordsUpper(v, sep, w, tail);
    KeyOfUpperName(name);
    TwoPlainWordsChain(v, sep, w, tail);
  }

  lemma TwoPlainWordsUpper(v: string, sep: string, w: string, tail: string)
    requires PlainWord(v) && PlainWord(w) && AllSpaces(sep) && AllSpaces(tail)
    ensures Upper(v + (sep + (w + tail))) == v + (sep + (w + tail))
  {
    UpperOfSpaces(sep);
    UpperOfSpaces(tail);
    UpperOfFourParts(v, sep, w, tail);
    assert v + sep + w + tail == v + (sep + (w + tail));
  }

  /** Class-word removal, line 25, line 26 and line 27 on two plain words and whitespace. */
  lemma TwoPlainWordsChain(v: string, sep: string, w: string, tail: string)
    requires PlainWord(v) && PlainWord(w) && |sep| > 0 && AllSpaces(sep) && AllSpaces(tail)
    ensures CollapseWhitespace(PunctuationToSpace(StripLeadingIndex(RemoveClassWords(v + (sep + (w + tail)))))) == v + " " + w
  {
    var name := v + (sep + (w + tail));
    TwoPlainWordsKept(v, sep, w, tail);
    NoLeadingDigit(name);
    assert forall i :: 0 <= i < |name| ==> IsWordOrSpace(name[i]);
    PunctuationToSpaceKeeps(name);
    TwoPlainWordsSplit(v, sep, w, tail);
    JoinTwo(v, w);
  }

  /** "VIWANJA SITINI" is the only override key that starts with a V. */
  lemma OtherVNameNotOverridden(k: string)
    requires |k| > 0 && k[0] == 'V' && k != "VIWANJA SITINI"
    ensures k !in NameOverrides
  {
  }

  lemma ViwanjaSitiniOverridden(name: string)
    requires name == "VIWANJA SITINI"
    ensures NormalizeText(name) == "VIWANJASITINI"
  {
    UpperOfUpperCase(name);
    assert ApplyOverride(Upper(name)) == "VIWANJASITINI";
    UpperOfUpperCase("VIWANJASITINI");
    PlainWordKey("VIWANJASITINI");
  }

  lemma ViwanjaSitiniWords(v: string, w: string)
    requires v == "VIWANJA" && w == "SITINI"
    ensures PlainWord(v) && PlainWord(w)
  {
    UpperOfUpperCase(v);
    UpperOfUpperCase(w);
  }

  /** A name that starts with "VIWANJA" and is not spelled exactly "VIWANJA SITINI" is no override key. */
  lemma ViwanjaVariantNotOverridden(v: string, sep: string, w: string, tail: string)
    requires v == "VIWANJA" && w == "SITINI"
    requires |sep| > 0 && AllSpaces(sep) && AllSpaces(tail) && sep + tail != " "
    ensures v + sep + w + tail !in NameOverrides
  {
    var name := v + sep + w + tail;
    assert name[0] == 'V';
    if |sep| + |tail| == 1 {
      assert |sep| == 1 && tail == "";
      assert name[7] == sep[0] != ' ';
    } else {
      assert |name| != |"VIWANJA SITINI"|;
    }
    OtherVNameNotOverridden(name);
  }

  /**
   * Lines 21-22 and 27: the override table is looked up before whitespace
   * is collapsed, so an overridden name keeps its override only when spelled
   * with exactly one space and none after it. "VIWANJA SITINI" gets the key
   * "VIWANJASITINI", but the same words with a trailing space, two spaces or
   * a tab between them get "VIWANJA SITINI".
   */
  lemma WhitespaceDefeatsOverride(v: string, sep: string, w: string, tail: string)
    requires v == "VIWANJA" && w == "SITINI"
    requires |sep| > 0 && AllSpaces(sep) && AllSpaces(tail) && sep + tail != " "
    ensures NormalizeText(v + " " + w) == "VIWANJASITINI"
    ensures NormalizeText(v + sep + w + tail) == v + " " + w
  {
    ViwanjaSitiniOverridden(v + " " + w);
    ViwanjaSitiniWords(v, w);
    ViwanjaVariantNotOverridden(v, sep, w, tail);
    TwoPlainWordsKey(v, sep, w, tail);
  }

  /** No override key starts with whitespace. */
  lemma SpaceFirstNotOverridden(s: string)
    requires |s| > 0 && IsSpace(s[0])
    ensures s !in NameOverrides
  {
  }

  /** Line 26 on a list number, ". " and a plain word: the point becomes a space. */
  lemma PunctuationOfNumberedName(lead: string, n: string, w: string)
    requires AllSpaces(lead) && IsNumber(n) && PlainWord(w)
    ensures PunctuationToSpace(lead + (n + (". " + w))) == lead + (n + ("  " + w))
  {
    var s := lead + (n + (". " + w));
    var t := lead + (n + ("  " + w));
    assert |s| == |t|;
    forall i | 0 <= i < |s|
      ensures PunctuationToSpace(s)[i] == t[i]
    {
      if i < |lead| {
        assert s[i] == lead[i] == t[i];
      } else if i < |lead| + |n| {
        assert s[i] == n[i - |lead|] == t[i];
      } else if i < |lead| + |n| + 2 {
        assert t[i] == ' ';
      } else {
        assert s[i] == w[i - |lead| - |n| - 2] == t[i];
      }
    }
  }

  /** Upper-casing and class-word removal keep leading whitespace, a list number, ". " and a plain word. */
  lemma IndentedNumberedNameKept(lead: string, n: string, w: string)
    requires AllSpaces(lead) && IsNumber(n) && PlainWord(w)
    ensures Upper(lead + (n + (". " + w))) == lead + (n + (". " + w))
    ensures RemoveClassWords(lead + (n + (". " + w))) == lead + (n + (". " + w))
  {
    UpperOfSpaces(lead);
    UpperOfNumber(n);
    UpperOfFourParts(lead, n, ". ", w);
    assert lead + n + ". " + w == lead + (n + (". " + w));
    PlainWordKey(w);
    FirstPassKept(n, w);
    RemoveClassWordsNonWord(lead, n + (". " + w));
  }

  /** Leading whitespace, a list number, two spaces and a plain word split into the number and the word. */
  lemma IndentedNumberedNameSplit(lead: string, n: string, w: string)
    requires AllSpaces(lead) && IsNumber(n) && PlainWord(w)
    ensures Split(lead + (n + ("  " + w))) == [n, w]
  {
    SplitAfterSpaces(lead, n + ("  " + w));
    NumberIsWord(n);
    SplitWordSpacesRest(n, "  ", w);
    PlainWordNoSpace(w);
    SplitOfWord(w);
  }

  /**
   * Line 25 anchors the list number at the very start of the name, before
   * anything strips whitespace: "3. W" loses its number, but the same name
   * after leading whitespace keeps it, as "3 W".
   */
  lemma LeadingWhitespaceKeepsIndex(lead: string, n: string, w: string)
    requires |lead| > 0 && AllSpaces(lead) && IsNumber(n) && PlainWord(w)
    ensures NormalizeText(n + ". " + w) == w
    ensures NormalizeText(lead + n + ". " + w) == n + " " + w
  {
    LeadingIndexRemoved(n, w);
    var name := lead + (n + (". " + w));
    assert lead + n + ". " + w == name;
    IndentedNumberedNameKept(lead, n, w);
    SpaceFirstNotOverridden(name);
    KeyOfUpperName(name);
    NoLeadingDigit(name);
    PunctuationOfNumberedName(lead, n, w);
    IndentedNumberedNameSplit(lead, n, w);
    JoinTwo(n, w);
  }

  // ---------------------------------------------------------------------
  // Replacing one whitespace run by another
  // ---------------------------------------------------------------------

  /** Class-word removal works on each side of a character that is not a word character. */
  lemma {:induction false} RemoveClassWordsAtNonWord(a: string, c: char, b: string)
    requires !IsWordChar(c)
    ensures RemoveClassWords(a + [c] + b) == RemoveClassWords(a) + [c] + RemoveClassWords(b)
    decreases |a|
  {
    if |a| == 0 {
      assert a + [c] + b == [c] + b;
      RemoveClassWordsOther(c, b);
    } else if IsWordChar(a[0]) {
      var m := LeadingCount(a, IsWordChar);
      var w, rest := a[..m], a[m..];
      ConcatAtSplit(a, w, rest, c, b);
      assert AllWordChars(w);
      RemoveClassWordsAtNonWord(rest, c, b);
      RemoveClassWordsAtWordRun(w, rest, c, b);
    } else {
      var rest := a[1..];
      ConcatAtSplit(a, [a[0]], rest, c, b);
      RemoveClassWordsAtNonWord(rest, c, b);
      RemoveClassWordsOther(a[0], rest + [c] + b);
      RemoveClassWordsOther(a[0], rest);
      ConcatAssoc4([a[0]], RemoveClassWords(rest), [c], RemoveClassWords(b));
    }
  }

  lemma ConcatAtSplit(a: string, w: string, rest: string, c: char, b: string)
    requires a == w + rest
    ensures a + [c] + b == w + (rest + [c] + b)
  {
  }

  /** The step of `RemoveClassWordsAtNonWord` past a leading word run. */
  lemma RemoveClassWordsAtWordRun(w: string, rest: string, c: char, b: string)
    requires !IsWordChar(c) && |w| > 0 && AllWordChars(w) && (|rest| > 0 ==> !IsWordChar(rest[0]))
    requires RemoveClassWords(rest + [c] + b) == RemoveClassWords(rest) + [c] + RemoveClassWords(b)
    ensures RemoveClassWords(w + (rest + [c] + b)) == RemoveClassWords(w + rest) + [c] + RemoveClassWords(b)
  {
    var tail := rest + [c] + b;
    assert |tail| > 0 ==> !IsWordChar(tail[0]);
    RemoveClassWordsRun(w, tail);
    RemoveClassWordsRun(w, rest);
    ConcatAssoc4(KeptRun(w), RemoveClassWords(rest), [c], RemoveClassWords(b));
  }

  lemma ConcatAssoc4(x: string, y: string, c: string, z: string)
    ensures x + (y + c + z) == x + y + c + z
  {
  }

  /** Class-word removal works on each side of a whitespace run. */
  lemma RemoveClassWordsAtSpaces(a: string, sep: string, b: string)
    requires |sep| > 0 && AllSpaces(sep)
    ensures RemoveClassWords(a + sep + b) == RemoveClassWords(a) + sep + RemoveClassWords(b)
  {
    var t := sep[1..];
    SpacesAtSplit(a, sep, b);
    RemoveClassWordsAtNonWord(a, sep[0], t + b);
    RemoveClassWordsNonWord(t, b);
    SpacesAtSplit(RemoveClassWords(a), sep, RemoveClassWords(b));
  }

  lemma SpacesAtSplit(a: string, sep: string, b: string)
    requires |sep| > 0
    ensures a + sep + b == a + [sep[0]] + (sep[1..] + b)
  {
    assert sep == [sep[0]] + sep[1..];
  }

  lemma UpperAtSpaces(a: string, sep: string, b: string)
    requires AllSpaces(sep)
    ensures Upper(a + sep + b) == Upper(a) + sep + Upper(b)
  {
    UpperConcat(a, sep);
    UpperConcat(a + sep, b);
    UpperOfSpaces(sep);
  }

  /** A run of characters satisfying `p` at the front adds its length to the leading count. */
  lemma {:induction false} LeadingCountAfterRun(a: string, b: string, p: char -> bool)
    requires forall i :: 0 <= i < |a| ==> p(a[i])
    ensures LeadingCount(a + b, p) == |a| + LeadingCount(b, p)
    decreases |a|
  {
    if |a| > 0 {
      assert (a + b)[1..] == a[1..] + b;
      LeadingCountAfterRun(a[1..], b, p);
    } else {
      assert a + b == b;
    }
  }

  /** A leading run that stops inside a shared prefix is the same in both strings. */
  lemma LeadingCountInPrefix(x: string, pre: string, p: char -> bool)
    requires |pre| <= |x| && x[..|pre|] == pre && LeadingCount(pre, p) < |pre|
    ensures LeadingCount(x, p) == LeadingCount(pre, p)
  {
    var n := LeadingCount(pre, p);
    assert x[..n] == pre[..n];
    LeadingCountOfPrefix(x, pre[..n], p);
  }

  lemma DropAtSplit(a: string, d: nat, sep: string, b: string)
    requires d <= |a|
    ensures (a + sep + b)[d..] == a[d..] + sep + b
  {
  }

  /** The list number of line 25 is found in the part before the first whitespace run. */
  lemma LeadingDigitsAtSpaces(a: string, sep: string, b: string)
    requires |sep| > 0 && AllSpaces(sep)
    ensures LeadingCount(a + sep + b, IsDigit) == LeadingCount(a, IsDigit)
    ensures (a + sep + b)[LeadingCount(a, IsDigit)..] == a[LeadingCount(a, IsDigit)..] + sep + b
  {
    var s := a + sep + b;
    assert s[..|a|] == a && s[|a|] == sep[0];
    LeadingCountOfPrefix(s, a, IsDigit);
    DropAtSplit(a, LeadingCount(a, IsDigit), sep, b);
  }

  /** Line 25 unfolded, given the digit count and the separator count. */
  lemma StripLeadingIndexIs(s: string, d: nat, m: nat)
    requires d == LeadingCount(s, IsDigit) && m == LeadingCount(s[d..], IsSpaceOrDot)
    ensures StripLeadingIndex(s) == if d > 0 && m > 0 then s[d + m..] else s
  {
  }

  /** Line 25 when the separator run after the digits ends before the whitespace run. */
  lemma StripStopsBeforeSpaces(a: string, d: nat, e: nat, sep: string, b: string)
    requires |sep| > 0 && AllSpaces(sep)
    requires d == LeadingCount(a, IsDigit) && e == LeadingCount(a[d..], IsSpaceOrDot) && e < |a| - d
    ensures StripLeadingIndex(a + sep + b) == StripLeadingIndex(a) + sep + b
  {
    var s := a + sep + b;
    LeadingDigitsAtSpaces(a, sep, b);
    StripStopsBeforeSpacesRun(a[d..], sep, b);
    StripLeadingIndexIs(s, d, e);
    StripLeadingIndexIs(a, d, e);
    if d > 0 && e > 0 {
      DropAtSplit(a, d + e, sep, b);
    }
  }

  lemma StripStopsBeforeSpacesRun(rest: string, sep: string, b: string)
    requires LeadingCount(rest, IsSpaceOrDot) < |rest|
    ensures LeadingCount(rest + sep + b, IsSpaceOrDot) == LeadingCount(rest, IsSpaceOrDot)
  {
    assert (rest + sep + b)[..|rest|] == rest;
    LeadingCountInPrefix(rest + sep + b, rest, IsSpaceOrDot);
  }

  /** Line 25 when the digits are followed by separators up to the whitespace run. */
  lemma StripRunsIntoSpaces(a: string, d: nat, sep: string, b: string)
    requires |sep| > 0 && AllSpaces(sep)
    requires d == LeadingCount(a, IsDigit) && LeadingCount(a[d..], IsSpaceOrDot) == |a| - d
    ensures d > 0 ==> StripLeadingIndex(a + sep + b) == b[LeadingCount(b, IsSpaceOrDot)..]
    ensures d == 0 ==> StripLeadingIndex(a + sep + b) == a + sep + b
  {
    var s := a + sep + b;
    var rest := a[d..];
    LeadingDigitsAtSpaces(a, sep, b);
    SeparatorsThenSpaces(rest, sep, b);
    var k := LeadingCount(b, IsSpaceOrDot);
    StripLeadingIndexIs(s, d, |rest + sep| + k);
    if d > 0 {
      DropAtSplit(a, d, sep, b);
      assert s[d + |rest + sep| + k..] == b[k..];
    }
  }

  lemma SeparatorsThenSpaces(rest: string, sep: string, b: string)
    requires AllSpaces(sep) && LeadingCount(rest, IsSpaceOrDot) == |rest|
    ensures LeadingCount(rest + sep + b, IsSpaceOrDot) == |rest + sep| + LeadingCount(b, IsSpaceOrDot)
  {
    assert forall i :: 0 <= i < |rest + sep| ==> IsSpaceOrDot((rest + sep)[i]);
    LeadingCountAfterRun(rest + sep, b, IsSpaceOrDot);
  }

  /**
   * Line 25 around a whitespace run: either the run survives, between the
   * same two sides whatever the run is, or it is swallowed by the stripped
   * list number and both spellings give the same text.
   */
  lemma StripLeadingIndexAtSpaces(a: string, sep: string, sep': string, b: string)
    returns (kept: bool, x: string, y: string)
    requires |sep| > 0 && AllSpaces(sep) && |sep'| > 0 && AllSpaces(sep')
    ensures kept ==> StripLeadingIndex(a + sep + b) == x + sep + y && StripLeadingIndex(a + sep' + b) == x + sep' + y
    ensures !kept ==> StripLeadingIndex(a + sep + b) == StripLeadingIndex(a + sep' + b)
  {
    var d := LeadingCount(a, IsDigit);
    if LeadingCount(a[d..], IsSpaceOrDot) < |a| - d {
      StripStopsBeforeSpaces(a, d, LeadingCount(a[d..], IsSpaceOrDot), sep, b);
      StripStopsBeforeSpaces(a, d, LeadingCount(a[d..], IsSpaceOrDot), sep', b);
      kept, x, y := true, StripLeadingIndex(a), b;
    } else {
      StripRunsIntoSpaces(a, d, sep, b);
      StripRunsIntoSpaces(a, d, sep', b);
      kept, x, y := d == 0, a, b;
    }
  }

  lemma PunctuationToSpaceAtSpaces(x: string, sep: string, y: string)
    requires AllSpaces(sep)
    ensures PunctuationToSpace(x + sep + y) == PunctuationToSpace(x) + sep + PunctuationToSpace(y)
  {
    var s := x + sep + y;
    var r := PunctuationToSpace(x) + sep + PunctuationToSpace(y);
    assert |s| == |r|;
    forall i | 0 <= i < |s|
      ensures PunctuationToSpace(s)[i] == r[i]
    {
      if i < |x| {
        assert s[i] == x[i];
      } else if i < |x| + |sep| {
        assert s[i] == sep[i - |x|] == r[i];
      } else {
        assert s[i] == y[i - |x| - |sep|];
      }
    }
  }

  /** A whitespace run separates words: each side splits on its own. */
  lemma SplitAtSpaces(x: string, sep: string, y: string)
    requires |sep| > 0 && AllSpaces(sep)
    ensures Split(x + sep + y) == Split(x) + Split(y)
  {
    assert x + sep + y == x + [sep[0]] + (sep[1..] + y);
    SplitAtSpace(x, sep[0], sep[1..] + y);
    SplitAfterSpaces(sep[1..], y);
  }

  /** The last two steps of the chain around a whitespace run. */
  lemma CollapseAtSpaces(x: string, sep: string, sep': string, y: string)
    requires |sep| > 0 && AllSpaces(sep) && |sep'| > 0 && AllSpaces(sep')
    ensures CollapseWhitespace(PunctuationToSpace(x + sep + y)) == CollapseWhitespace(PunctuationToSpace(x + sep' + y))
  {
    PunctuationToSpaceAtSpaces(x, sep, y);
    PunctuationToSpaceAtSpaces(x, sep', y);
    SplitAtSpaces(PunctuationToSpace(x), sep, PunctuationToSpace(y));
    SplitAtSpaces(PunctuationToSpace(x), sep', PunctuationToSpace(y));
  }

  /**
   * Lines 20-27: outside the override table, a key does not depend on how a
   * name's words are spaced. Replacing one non-empty whitespace run by another
   * keeps the key, provided neither spelling is an override key. The two
   * counterexamples above show that the proviso and the non-empty runs are
   * both needed.
   */
  lemma WhitespaceRunReplaced(a: string, sep: string, sep': string, b: string)
    requires |sep| > 0 && AllSpaces(sep) && |sep'| > 0 && AllSpaces(sep')
    requires Upper(a + sep + b) !in NameOverrides && Upper(a + sep' + b) !in NameOverrides
    ensures NormalizeText(a + sep + b) == NormalizeText(a + sep' + b)
  {
    UpperAtSpaces(a, sep, b);
    UpperAtSpaces(a, sep', b);
    var ua, ub := Upper(a), Upper(b);
    RemoveClassWordsAtSpaces(ua, sep, ub);
    RemoveClassWordsAtSpaces(ua, sep', ub);
    var ra, rb := RemoveClassWords(ua), RemoveClassWords(ub);
    var kept, x, y := StripLeadingIndexAtSpaces(ra, sep, sep', rb);
    if kept {
      CollapseAtSpaces(x, sep, sep', y);
    }
  }
}
