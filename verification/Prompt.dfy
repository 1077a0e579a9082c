/** Prompt construction: the delimiter pattern `_TAG`, its substitution `sanitize`, and the user prompt. */
module Prompt {
  import opened Text

  const OPEN := '\U{2039}'    // single left-pointing angle quotation mark
  const CLOSE := '\U{203a}'   // single right-pointing angle quotation mark

  /** The regular expression class \w is the Unicode database's; the pattern depends on it only
      through \b, of which the model needs that Latin letters are word characters and that line feeds and
      the angle brackets, ASCII or typographic, are not. */
  ghost predicate WordClass(word: char -> bool) {
    && (forall c | 'a' <= c <= 'z' || 'A' <= c <= 'Z' :: word(c))
    && !word('\n') && !word('<') && !word('>') && !word(OPEN) && !word(CLOSE)
  }

  type Word = f: char -> bool | WordClass(f) ghost witness c => 'a' <= c <= 'z' || 'A' <= c <= 'Z'

  const NAMES := ["complaint", "location", "system", "assistant", "user"]

  /** `s[g..n]` is one of `NAMES`, in any case. */
  predicate NameAt(s: string, g: nat, n: nat) {
    exists k | 0 <= k < |NAMES| :: SpellsAt(s, g, n, NAMES[k])
  }

  /** The front of `s` matches `</?\s*(name)\b`: it opens with '<', an optional '/' up to `a`, blanks
      up to `g`, a name up to `n`, and there is a word boundary at `n`. */
  predicate Head(word: Word, s: string, a: nat, g: nat, n: nat) {
    && 1 <= a <= g < n < |s|
    && s[0] == '<'
    && (a == 1 || (a == 2 && s[1] == '/'))
    && (forall k | a <= k < g :: IsSpace(s[k]))
    && NameAt(s, g, n)
    && word(s[n - 1]) != word(s[n])
  }

  predicate Shape(word: Word, w: string, a: nat, g: nat, n: nat) {
    && Head(word, w, a, g, n)
    && w[|w| - 1] == '>'
    && (forall k | n <= k < |w| - 1 :: w[k] != '>')
  }

  /** The whole of `w` is a match of `_TAG`. A match always ends in '>', which is not a word character,
      so whether a substring matches does not depend on the text around it. */
  ghost predicate IsTag(word: Word, w: string) {
    exists a: nat, g: nat, n: nat :: Shape(word, w, a, g, n)
  }

  /** The end of the name of index `k` or later that starts at `g`, or `g` if there is none. */
  function NameEnd(s: string, g: nat, k: nat): (n: nat)
    requires g <= |s| && k <= |NAMES|
    ensures g <= n <= |s| && (n > g ==> NameAt(s, g, n))
    ensures n == g ==> forall i, m: nat | k <= i < |NAMES| :: !SpellsAt(s, g, m, NAMES[i])
    decreases |NAMES| - k
  {
    if k == |NAMES| then g
    else if SpellsAt(s, g, g + |NAMES[k]|, NAMES[k]) then g + |NAMES[k]|
    else NameEnd(s, g, k + 1)
  }

  /** The first index from `i` on at which `c` stands, or the length of `s`. */
  function Find(s: string, i: nat, c: char): (j: nat)
    requires i <= |s|
    ensures i <= j <= |s| && (forall k | i <= k < j :: s[k] != c) && (j < |s| ==> s[j] == c)
    decreases |s| - i
  {
    if i == |s| || s[i] == c then i else Find(s, i + 1, c)
  }

  /** The length of the match of `_TAG` that starts at the front of `s`, or 0 if there is none. */
  function TagLength(word: Word, s: string): (m: nat)
    ensures m <= |s|
  {
    if s == "" || s[0] != '<' then 0
    else
      var g := SkipSpace(s, if |s| > 1 && s[1] == '/' then 2 else 1);
      var n := NameEnd(s, g, 0);
      if n == g || n == |s| || word(s[n - 1]) == word(s[n]) then 0
      else
        var e := Find(s, n, '>');
        if e == |s| then 0 else e + 1
  }

  function Neutral(s: string): (r: string)
    ensures |r| == |s|
    ensures forall k | 0 <= k < |s| ::
      r[k] == if s[k] == '<' then OPEN else if s[k] == '>' then CLOSE else s[k]
  {
    seq(|s|, i requires 0 <= i < |s| => if s[i] == '<' then OPEN else if s[i] == '>' then CLOSE else s[i])
  }

  /** `_TAG.sub`: left to right, each match is neutralised and scanning resumes after it. */
  function Sanitize(word: Word, s: string): (r: string)
    ensures |r| == |s|
    decreases |s|
  {
    if s == "" then ""
    else
      var n := TagLength(word, s);
      if n > 0 then Neutral(s[..n]) + Sanitize(word, s[n..])
      else [s[0]] + Sanitize(word, s[1..])
  }

  /** No two names start with the same letter, so at most one of them stands at a position; what
      stands there is made of letters. */
  lemma NameUnique(s: string, g: nat, m: nat, n: nat)
    requires NameAt(s, g, m) && NameAt(s, g, n)
    ensures g < m == n <= |s|
    ensures forall i | g <= i < n :: 'A' <= s[i] && s[i] != OPEN && s[i] != CLOSE && !IsSpace(s[i])
  {
    var j :| 0 <= j < |NAMES| && SpellsAt(s, g, m, NAMES[j]);
    var k :| 0 <= k < |NAMES| && SpellsAt(s, g, n, NAMES[k]);
    assert SameLetter(s[g + 0], NAMES[j][0]) && SameLetter(s[g + 0], NAMES[k][0]);
    FirstLetters(s[g], j, k);
    NameIsLetters(s, g, n, k);
  }

  lemma FirstLetters(c: char, j: nat, k: nat)
    requires j < |NAMES| && k < |NAMES| && SameLetter(c, NAMES[j][0]) && SameLetter(c, NAMES[k][0])
    ensures j == k
  {
  }

  lemma NameIsLetters(s: string, g: nat, n: nat, k: nat)
    requires k < |NAMES| && SpellsAt(s, g, n, NAMES[k])
    ensures g < n <= |s|
    ensures forall i | g <= i < n :: 'A' <= s[i] && s[i] != OPEN && s[i] != CLOSE && !IsSpace(s[i])
  {
    var name := NAMES[k];
    assert forall i | 0 <= i < |name| :: 'a' <= name[i] <= 'z';
    forall i | g <= i < n ensures 'A' <= s[i] && s[i] != OPEN && s[i] != CLOSE && !IsSpace(s[i]) {
      assert SameLetter(s[g + (i - g)], name[i - g]);
    }
  }

  /** The scanner finds exactly the matches of the pattern: there is at most one at each position. */
  lemma TagLengthExact(word: Word, s: string, m: nat)
    requires m <= |s|
    ensures m > 0 && TagLength(word, s) == m <==> IsTag(word, s[..m])
  {
    hide TagLength, NameAt;
    if m > 0 && TagLength(word, s) == m {
      TagLengthSound(word, s);
    }
    if IsTag(word, s[..m]) {
      var a: nat, g: nat, n: nat :| Shape(word, s[..m], a, g, n);
      SameName(s[..m], s, g, n);
      TagFound(word, s, m, a, g, n);
    }
  }

  lemma TagLengthSound(word: Word, s: string)
    requires TagLength(word, s) > 0
    ensures IsTag(word, s[..TagLength(word, s)])
  {
    hide Head, NameAt, SkipSpace, NameEnd, Find, IsTag, SpellsAt;
    var a := if |s| > 1 && s[1] == '/' then 2 else 1;
    var g := SkipSpace(s, a);
    var n := NameEnd(s, g, 0);
    ScannedHead(word, s, a, g, n);
    CutTag(word, s, Find(s, n, '>'), a, g, n);
  }

  lemma ScannedHead(word: Word, s: string, a: nat, g: nat, n: nat)
    requires s != "" && s[0] == '<' && a == if |s| > 1 && s[1] == '/' then 2 else 1
    requires g == SkipSpace(s, a) && n == NameEnd(s, g, 0)
    requires g < n < |s| && word(s[n - 1]) != word(s[n])
    ensures Head(word, s, a, g, n)
  {
  }

  /** A head and the first '>' after it make a match. */
  lemma CutTag(word: Word, s: string, e: nat, a: nat, g: nat, n: nat)
    requires Head(word, s, a, g, n) && n <= e < |s| && s[e] == '>' && forall k | n <= k < e :: s[k] != '>'
    ensures IsTag(word, s[..e + 1])
  {
    hide NameAt;
    var w := s[..e + 1];
    SameName(s, w, g, n);
    assert Shape(word, w, a, g, n);
  }

  lemma SameName(s: string, t: string, g: nat, n: nat)
    requires NameAt(s, g, n) && n <= |t| && forall k | g <= k < n :: s[k] == t[k]
    ensures NameAt(t, g, n)
  {
    var k :| 0 <= k < |NAMES| && SpellsAt(s, g, n, NAMES[k]);
    assert SpellsAt(t, g, n, NAMES[k]);
  }

  lemma TagFound(word: Word, s: string, m: nat, a: nat, g: nat, n: nat)
    requires Head(word, s, a, g, n) && n < m <= |s|
    requires s[m - 1] == '>' && forall k | n <= k < m - 1 :: s[k] != '>'
    ensures TagLength(word, s) == m
  {
    HeadFound(word, s, a, g, n);
  }

  lemma HeadFound(word: Word, s: string, a: nat, g: nat, n: nat)
    requires Head(word, s, a, g, n)
    ensures a == if |s| > 1 && s[1] == '/' then 2 else 1
    ensures g == SkipSpace(s, a)
    ensures n == NameEnd(s, g, 0)
  {
    NameUnique(s, g, n, n);
    SkipSpaceIs(s, a, g);
    var k :| 0 <= k < |NAMES| && SpellsAt(s, g, n, NAMES[k]);
    NameUnique(s, g, n, NameEnd(s, g, 0));
  }

  /** How `Sanitize` may alter a character. */
  predicate Softened(c: char, r: char) {
    r == c || (c == '<' && r == OPEN) || (c == '>' && r == CLOSE)
  }

  lemma {:induction false} SanitizeSoftens(word: Word, s: string)
    ensures forall k | 0 <= k < |s| :: Softened(s[k], Sanitize(word, s)[k])
  {
    hide TagLength;
    if s != "" {
      var n := TagLength(word, s);
      if n > 0 {
        SanitizeSoftens(word, s[n..]);
      } else {
        SanitizeSoftens(word, s[1..]);
      }
    }
  }

  /** Every character `Sanitize` changes lies inside a match of the pattern in the original text. */
  lemma {:induction false} SanitizeChangesOnlyTags(word: Word, s: string, k: nat) returns (i: nat, j: nat)
    requires k < |s| && Sanitize(word, s)[k] != s[k]
    ensures i <= k < j <= |s| && IsTag(word, s[i..j])
    decreases |s|
  {
    hide TagLength, Shape, IsTag, Sanitize;
    var n := TagLength(word, s);
    if k < n {
      TagLengthExact(word, s, n);
      i, j := 0, n;
      assert s[0..n] == s[..n];
    } else {
      var d := if n > 0 then n else 1;
      SanitizeRest(word, s, d);
      assert Sanitize(word, s)[d..][k - d] == Sanitize(word, s)[k];
      i, j := SanitizeChangesOnlyTags(word, s[d..], k - d);
      TagFurtherOn(word, s, d, i, j);
      i, j := d + i, d + j;
    }
  }

  lemma TagFurtherOn(word: Word, s: string, d: nat, i: nat, j: nat)
    requires d <= |s| && i <= j <= |s| - d && IsTag(word, s[d..][i..j])
    ensures IsTag(word, s[d + i..d + j])
  {
    hide IsTag;
    assert s[d..|s|] == s[d..];
    SubSlice(s, d, |s|, i, j);
  }

  lemma SanitizeRest(word: Word, s: string, d: nat)
    requires s != "" && d == if TagLength(word, s) > 0 then TagLength(word, s) else 1
    ensures Sanitize(word, s)[d..] == Sanitize(word, s[d..])
    ensures TagLength(word, s) == 0 ==> Sanitize(word, s)[0] == s[0]
  {
    hide TagLength;
  }

  ghost predicate TagFree(word: Word, s: string) {
    forall i: nat, j: nat | i <= j <= |s| :: !IsTag(word, s[i..j])
  }

  /** The point of `sanitize`: no substring of the result matches the pattern, although a match may
      itself swallow other '<' and although the pattern is applied only once, left to right. */
  lemma {:induction false} SanitizeLeavesNoTag(word: Word, s: string)
    ensures TagFree(word, Sanitize(word, s))
    decreases |s|
  {
    hide TagLength, Shape;
    var r := Sanitize(word, s);
    var n := TagLength(word, s);
    var d := if n > 0 then n else 1;
    if s != "" {
      SanitizeLeavesNoTag(word, s[d..]);
      assert r[d..] == Sanitize(word, s[d..]);
      SanitizeSoftens(word, s);
    }
    forall i: nat, j: nat | i <= j <= |r| ensures !IsTag(word, r[i..j]) {
      if i >= d && s != "" {
        assert r[d..|r|] == r[d..];
        SubSlice(r, d, |r|, i - d, j - d);
      } else if IsTag(word, r[i..j]) {
        TagOpens(word, r[i..j]);
        assert r[i] == '<';
        if n > 0 { NeutralHasNoBracket(word, s, i); }
        assert r[0..j] == r[..j];
        TagInOriginal(word, s, r, j);
      }
    }
  }

  lemma NeutralHasNoBracket(word: Word, s: string, i: nat)
    requires i < TagLength(word, s)
    ensures Sanitize(word, s)[i] != '<'
  {
    assert Sanitize(word, s)[i] == Neutral(s[..TagLength(word, s)])[i];
  }

  lemma TagOpens(word: Word, w: string)
    requires IsTag(word, w)
    ensures w != "" && w[0] == '<' && w[|w| - 1] == '>'
  {
  }

  /** A match at the front of a softened text was one, perhaps shorter, before softening. */
  lemma TagInOriginal(word: Word, s: string, r: string, j: nat)
    requires |r| == |s| && j <= |r| && IsTag(word, r[..j])
    requires forall k | 0 <= k < |s| :: Softened(s[k], r[k])
    ensures TagLength(word, s) > 0
  {
    var w := r[..j];
    var a: nat, g: nat, n: nat :| Shape(word, w, a, g, n);
    NameUnique(w, g, n, n);
    assert forall k | 0 <= k < n :: s[k] == w[k];
    SameName(w, s, g, n);
    assert word(s[n]) == word(w[n]) by { assert Softened(s[n], r[n]); }
    assert s[j - 1] == '>' by { assert Softened(s[j - 1], r[j - 1]); }
    TagFound(word, s, Find(s, n, '>') + 1, a, g, n);
  }

  /** `sanitize` alters a text exactly when a tag occurs in it; hence it is idempotent. */
  lemma {:induction false} SanitizeFixesExactlyTagFree(word: Word, s: string)
    ensures Sanitize(word, s) == s <==> TagFree(word, s)
    ensures Sanitize(word, Sanitize(word, s)) == Sanitize(word, s)
  {
    SanitizeLeavesNoTag(word, s);
    TagFreeFixed(word, Sanitize(word, s));
    if TagFree(word, s) {
      TagFreeFixed(word, s);
    }
  }

  lemma {:induction false} TagFreeFixed(word: Word, s: string)
    requires TagFree(word, s)
    ensures Sanitize(word, s) == s
  {
    if s != "" {
      var n := TagLength(word, s);
      TagLengthExact(word, s, n);
      assert s[0..n] == s[..n];
      forall i: nat, j: nat | i <= j <= |s| - 1 ensures !IsTag(word, s[1..][i..j]) {
        SubSlice(s, 1, |s|, i, j);
        assert s[1..][i..j] == s[i + 1..j + 1];
      }
      TagFreeFixed(word, s[1..]);
    }
  }

  /** Mapping the typographic quotation marks back. */
  function Restore(s: string): (r: string)
    ensures |r| == |s|
  {
    seq(|s|, i requires 0 <= i < |s| => if s[i] == OPEN then '<' else if s[i] == CLOSE then '>' else s[i])
  }

  /** Nothing is lost by sanitising a text that held no typographic quotation mark of its own. */
  lemma SanitizeInvertible(word: Word, s: string)
    requires OPEN !in s && CLOSE !in s
    ensures Restore(Sanitize(word, s)) == s
  {
    SanitizeSoftens(word, s);
  }

  const BEFORE_LOCATION := "<location>"
  const BETWEEN := "</location>\n<complaint>\n"
  const AFTER_TEXT := "\n" + "</complaint>" + "\nReturn the JSON object now."

  /** `build_user_prompt`. */
  function BuildUserPrompt(word: Word, text: string, location: string): string {
    BEFORE_LOCATION + Sanitize(word, location) + BETWEEN + Sanitize(word, text) + AFTER_TEXT
  }

  const DELIMITERS := ["<location>", "</location>", "<complaint>", "</complaint>"]

  /** Where the template itself puts its four delimiters around data of the given lengths. */
  function Place(k: nat, location: nat, text: nat): nat
    requires k < 4
  {
    match k
    case 0 => 0
    case 1 => 10 + location
    case 2 => 22 + location
    case 3 => 35 + location + text
  }

  /** Whatever a citizen writes, each delimiter stands in the prompt exactly once: where the template
      put it. */
  lemma DelimiterExactlyOnce(word: Word, text: string, location: string, k: nat, p: nat)
    requires k < 4
    ensures OccursAt(DELIMITERS[k], BuildUserPrompt(word, text, location), p)
      <==> p == Place(k, |location|, |text|)
  {
    hide Sanitize, IsTag;
    DelimiterIsTag(word, k);
    SanitizeLeavesNoTag(word, text);
    SanitizeLeavesNoTag(word, location);
    var L, T, P := Sanitize(word, location), Sanitize(word, text), BuildUserPrompt(word, text, location);
    PiecesOfPrompt(word, text, location);
    DelimiterHere(P, L, T, k);
    if OccursAt(DELIMITERS[k], P, p) {
      DelimiterOnlyHere(word, P, L, T, k, p);
    }
  }

  lemma DelimiterIsTag(word: Word, k: nat)
    requires k < 4
    ensures IsTag(word, DELIMITERS[k])
  {
    var d := DELIMITERS[k];
    var a, name := if k % 2 == 0 then 1 else 2, if k < 2 then NAMES[1] else NAMES[0];
    assert SpellsAt(d, a, a + |name|, name);
    assert Shape(word, d, a, a, a + |name|);
  }

  /** `P` is the template filled in with `L` and `T`. */
  predicate Pieces(P: string, L: string, T: string) {
    && |P| == 10 + |L| + |BETWEEN| + |T| + |AFTER_TEXT|
    && OccursAt(BEFORE_LOCATION, P, 0)
    && OccursAt(L, P, 10)
    && OccursAt(BETWEEN, P, 10 + |L|)
    && OccursAt(T, P, 10 + |L| + |BETWEEN|)
    && OccursAt(AFTER_TEXT, P, 10 + |L| + |BETWEEN| + |T|)
  }

  lemma PiecesOfPrompt(word: Word, text: string, location: string)
    ensures Pieces(BuildUserPrompt(word, text, location), Sanitize(word, location), Sanitize(word, text))
  {
    hide Sanitize;
    var L, T := Sanitize(word, location), Sanitize(word, text);
    Fill(BEFORE_LOCATION, L, BETWEEN, T, AFTER_TEXT);
  }

  lemma Fill(A: string, L: string, B: string, T: string, C: string)
    ensures var P := A + L + B + T + C;
      OccursAt(A, P, 0) && OccursAt(L, P, |A|) && OccursAt(B, P, |A| + |L|)
      && OccursAt(T, P, |A| + |L| + |B|) && OccursAt(C, P, |A| + |L| + |B| + |T|)
  {
    hide OccursAt;
    var upToL, upToB, upToT, P := A + L, A + L + B, A + L + B + T, A + L + B + T + C;
    assert A <= upToL <= upToB <= upToT <= P;
    assert "" + A == A;
    EndsPrefix(P, "", A);
    EndsPrefix(P, A, L);
    EndsPrefix(P, upToL, B);
    EndsPrefix(P, upToB, T);
    EndsPrefix(P, upToT, C);
  }

  lemma EndsPrefix(s: string, before: string, part: string)
    requires before + part <= s
    ensures OccursAt(part, s, |before|)
  {
  }

  lemma DelimiterHere(P: string, L: string, T: string, k: nat)
    requires Pieces(P, L, T) && k < 4
    ensures OccursAt(DELIMITERS[k], P, Place(k, |L|, |T|))
  {
    var piece := if k == 0 then BEFORE_LOCATION else if k < 3 then BETWEEN else AFTER_TEXT;
    var q := match k case 0 => 0 case 1 => 0 case 2 => 12 case 3 => 1;
    assert BEFORE_LOCATION[0..10] == DELIMITERS[0] && BETWEEN[0..11] == DELIMITERS[1];
    assert BETWEEN[12..23] == DELIMITERS[2] && AFTER_TEXT[1..13] == DELIMITERS[3];
    OccursWithin(DELIMITERS[k], piece, P, q, Place(k, |L|, |T|) - q);
  }

  lemma DelimiterOnlyHere(word: Word, P: string, L: string, T: string, k: nat, p: nat)
    requires Pieces(P, L, T) && TagFree(word, L) && TagFree(word, T)
    requires k < 4 && IsTag(word, DELIMITERS[k]) && OccursAt(DELIMITERS[k], P, p)
    ensures p == Place(k, |L|, |T|)
  {
    hide IsTag, TagFree;
    var l := 10 + |L|;
    var t := l + |BETWEEN|;
    OccursElementwise(BETWEEN, P, l);
    OccursElementwise(AFTER_TEXT, P, t + |T|);
    assert P[l + 0] == BETWEEN[0] && P[t + |T| + 0] == AFTER_TEXT[0];
    if 10 <= p < l {
      NotInData(word, P, L, 10, k, p);
    } else if t <= p < t + |T| {
      NotInData(word, P, T, t, k, p);
    } else if p < 10 {
      AtBracket(P, BEFORE_LOCATION, 0, k, p);
    } else if p < t {
      AtBracket(P, BETWEEN, l, k, p);
    } else {
      AtBracket(P, AFTER_TEXT, t + |T|, k, p);
    }
  }

  /** A delimiter cannot start inside sanitised data: it would lie within it and be a tag there, or
      run over a '<' or a line break, and a delimiter holds none after its first character. */
  lemma NotInData(word: Word, P: string, D: string, d: nat, k: nat, p: nat)
    requires OccursAt(D, P, d) && TagFree(word, D) && d + |D| < |P| && P[d + |D|] in {'<', '\n'}
    requires k < 4 && IsTag(word, DELIMITERS[k]) && OccursAt(DELIMITERS[k], P, p)
    ensures !(d <= p < d + |D|)
  {
    hide IsTag;
    var lit := DELIMITERS[k];
    OccursElementwise(lit, P, p);
    assert forall i | 1 <= i < |lit| :: lit[i] != '<' && lit[i] != '\n';
    if d <= p < d + |D| {
      assert d + |D| < p + |lit| ==> P[p + (d + |D| - p)] == lit[d + |D| - p];
      SubSlice(P, d, d + |D|, p - d, p - d + |lit|);
    }
  }

  /** Where a delimiter starts within a fixed piece of the template. */
  lemma AtBracket(P: string, X: string, d: nat, k: nat, p: nat)
    requires X in {BEFORE_LOCATION, BETWEEN, AFTER_TEXT} && OccursAt(X, P, d) && d <= p < d + |X|
    requires k < 4 && OccursAt(DELIMITERS[k], P, p)
    ensures X == BEFORE_LOCATION ==> p == d && k == 0
    ensures X == BETWEEN ==> (p == d && k == 1) || (p == d + 12 && k == 2)
    ensures X == AFTER_TEXT ==> p == d + 1 && k == 3
  {
    var lit, o := DELIMITERS[k], p - d;
    Overlap(P, X, lit, d, p);
    hide OccursAt;
    if X == BEFORE_LOCATION {
      InFirstPiece(o, k);
    } else if X == BETWEEN {
      InMiddlePiece(o, k);
    } else {
      InLastPiece(o, k);
    }
  }

  lemma Overlap(P: string, X: string, lit: string, d: nat, p: nat)
    requires OccursAt(X, P, d) && OccursAt(lit, P, p) && d <= p
    ensures forall i | 0 <= i < |lit| && p - d + i < |X| :: X[p - d + i] == lit[i]
  {
    OccursElementwise(lit, P, p);
    OccursElementwise(X, P, d);
    hide OccursAt;
    forall i | 0 <= i < |lit| && p - d + i < |X| ensures X[p - d + i] == lit[i] {
      assert X[p - d + i] == P[d + (p - d + i)] == P[p + i];
    }
  }

  /** The first three characters tell the delimiters apart. */
  lemma FirstThree(k: nat)
    requires k < 4
    ensures var lit := DELIMITERS[k];
      && |lit| > 3 && lit[0] == '<'
      && (k == 0 ==> lit[1] == 'l') && (k == 1 ==> lit[1] == '/' && lit[2] == 'l')
      && (k == 2 ==> lit[1] == 'c') && (k == 3 ==> lit[1] == '/' && lit[2] == 'c')
  {
  }

  lemma InFirstPiece(o: nat, k: nat)
    requires k < 4 && o < |BEFORE_LOCATION|
    requires forall i | 0 <= i < |DELIMITERS[k]| && o + i < |BEFORE_LOCATION| ::
      BEFORE_LOCATION[o + i] == DELIMITERS[k][i]
    ensures o == 0 && k == 0
  {
    FirstThree(k);
    var lit := DELIMITERS[k];
    assert BEFORE_LOCATION[o + 0] == lit[0];
    assert BEFORE_LOCATION[o + 1] == lit[1];
  }

  lemma InMiddlePiece(o: nat, k: nat)
    requires k < 4 && o < |BETWEEN|
    requires forall i | 0 <= i < |DELIMITERS[k]| && o + i < |BETWEEN| :: BETWEEN[o + i] == DELIMITERS[k][i]
    ensures (o == 0 && k == 1) || (o == 12 && k == 2)
  {
    FirstThree(k);
    var lit := DELIMITERS[k];
    assert BETWEEN[o + 0] == lit[0];
    assert BETWEEN[o + 1] == lit[1];
    assert BETWEEN[o + 2] == lit[2];
  }

  lemma InLastPiece(o: nat, k: nat)
    requires k < 4 && o < |AFTER_TEXT|
    requires forall i | 0 <= i < |DELIMITERS[k]| && o + i < |AFTER_TEXT| :: AFTER_TEXT[o + i] == DELIMITERS[k][i]
    ensures o == 1 && k == 3
  {
    FirstThree(k);
    var lit := DELIMITERS[k];
    assert AFTER_TEXT[o + 0] == lit[0];
    assert AFTER_TEXT[o + 1] == lit[1];
    assert AFTER_TEXT[o + 2] == lit[2];
  }

  /** Splitting the prompt on its delimiters, at any occurrence of them, recovers exactly the two
      sanitised inputs. */
  lemma PromptDecodes(word: Word, text: string, location: string, p: nat, q: nat, u: nat, v: nat)
    requires var P := BuildUserPrompt(word, text, location);
      && OccursAt(DELIMITERS[0], P, p) && OccursAt(DELIMITERS[1], P, q)
      && OccursAt(DELIMITERS[2], P, u) && OccursAt(DELIMITERS[3], P, v)
    ensures var P := BuildUserPrompt(word, text, location);
      && p + 10 <= q < u && u + 12 < v < |P|
      && P[p + 10..q] == Sanitize(word, location)
      && P[u + 12..v - 1] == Sanitize(word, text)
  {
    hide Sanitize;
    DelimiterExactlyOnce(word, text, location, 0, p);
    DelimiterExactlyOnce(word, text, location, 1, q);
    DelimiterExactlyOnce(word, text, location, 2, u);
    DelimiterExactlyOnce(word, text, location, 3, v);
    PiecesOfPrompt(word, text, location);
  }

  /** Hence no two pairs of sanitised inputs share a prompt. */
  lemma PromptUnambiguous(word: Word, text: string, location: string, text': string, location': string)
    requires BuildUserPrompt(word, text, location) == BuildUserPrompt(word, text', location')
    ensures Sanitize(word, text) == Sanitize(word, text')
    ensures Sanitize(word, location) == Sanitize(word, location')
  {
    hide Sanitize, BuildUserPrompt;
    var l, t := |location|, |text|;
    DelimiterExactlyOnce(word, text, location, 0, Place(0, l, t));
    DelimiterExactlyOnce(word, text, location, 1, Place(1, l, t));
    DelimiterExactlyOnce(word, text, location, 2, Place(2, l, t));
    DelimiterExactlyOnce(word, text, location, 3, Place(3, l, t));
    PromptDecodes(word, text, location, Place(0, l, t), Place(1, l, t), Place(2, l, t), Place(3, l, t));
    PromptDecodes(word, text', location', Place(0, l, t), Place(1, l, t), Place(2, l, t), Place(3, l, t));
  }

  /** The prompt in full: nothing stands in it but the template and the two sanitised inputs. */
  lemma PromptInFull(word: Word, text: string, location: string)
    ensures BuildUserPrompt(word, text, location)
      == "<location>" + Sanitize(word, location) + "</location>\n"
       + ("<complaint>\n" + Sanitize(word, text) + "\n</complaint>\n" + "Return the JSON object now.")
  {
    var l, t := "<location>" + Sanitize(word, location), Sanitize(word, text);
    hide Sanitize;
    assert BETWEEN == "</location>\n" + "<complaint>\n";
    assert AFTER_TEXT == "\n</complaint>\n" + "Return the JSON object now.";
    Regrouped(l, "</location>\n", "<complaint>\n", t, "\n</complaint>\n", "Return the JSON object now.");
  }

  lemma Regrouped(a: string, b: string, c: string, d: string, e: string, f: string)
    ensures a + (b + c) + d + (e + f) == a + b + (c + d + e + f)
  {
  }

  // ---------------------------------------------------------------- what a tag is

  /** The five names, in any case. */
  ghost predicate IsName(x: string) {
    || SpellsAt(x, 0, |x|, "complaint") || SpellsAt(x, 0, |x|, "location") || SpellsAt(x, 0, |x|, "system")
    || SpellsAt(x, 0, |x|, "assistant") || SpellsAt(x, 0, |x|, "user")
  }

  /** `<`, perhaps a slash, perhaps blanks, a name, and up to the first `>` anything that does not go on with the
      name. */
  ghost predicate TagForm(word: Word, w: string, slash: string, blanks: string, name: string, rest: string) {
    && w == "<" + slash + blanks + name + rest + ">"
    && slash in {"", "/"} && AllSpace(blanks) && IsName(name)
    && '>' !in rest && (rest == "" || !word(rest[0]))
  }

  /** Exactly such texts are tags. */
  lemma TagIffForm(word: Word, w: string)
    ensures IsTag(word, w) <==>
      exists slash, blanks, name, rest :: TagForm(word, w, slash, blanks, name, rest)
  {
    hide Shape, TagForm;
    if IsTag(word, w) {
      var a: nat, g: nat, n: nat :| Shape(word, w, a, g, n);
      var slash, blanks, name, rest := ShapeHasForm(word, w, a, g, n);
    }
    if slash, blanks, name, rest :| TagForm(word, w, slash, blanks, name, rest) {
      FormHasShape(word, w, slash, blanks, name, rest);
    }
  }

  lemma NamesAreNames(s: string, g: nat, n: nat)
    requires g <= n <= |s|
    ensures NameAt(s, g, n) <==> IsName(s[g..n])
  {
    if NameAt(s, g, n) {
      var k :| 0 <= k < |NAMES| && SpellsAt(s, g, n, NAMES[k]);
      Respelled(s, g, n, NAMES[k]);
    }
    if IsName(s[g..n]) {
      Respelled(s, g, n, NAMES[0]);
      Respelled(s, g, n, NAMES[1]);
      Respelled(s, g, n, NAMES[2]);
      Respelled(s, g, n, NAMES[3]);
      Respelled(s, g, n, NAMES[4]);
    }
  }

  lemma Respelled(s: string, g: nat, n: nat, name: string)
    requires g <= n <= |s|
    ensures SpellsAt(s, g, n, name) <==> SpellsAt(s[g..n], 0, n - g, name)
  {
    assert forall i | 0 <= i < n - g :: s[g..n][i] == s[g + i];
    if SpellsAt(s[g..n], 0, n - g, name) {
      forall i | 0 <= i < |name| ensures SameLetter(s[g + i], name[i]) {
        assert SameLetter(s[g..n][0 + i], name[i]);
      }
    }
  }

  lemma NamesEndInLetters(word: Word, x: string)
    requires IsName(x)
    ensures x != "" && word(x[|x| - 1])
  {
    var e := |x| - 1;
    assert SpellsAt(x, 0, |x|, "complaint") ==> SameLetter(x[0 + e], "complaint"[e]);
    assert SpellsAt(x, 0, |x|, "location") ==> SameLetter(x[0 + e], "location"[e]);
    assert SpellsAt(x, 0, |x|, "system") ==> SameLetter(x[0 + e], "system"[e]);
    assert SpellsAt(x, 0, |x|, "assistant") ==> SameLetter(x[0 + e], "assistant"[e]);
    assert SpellsAt(x, 0, |x|, "user") ==> SameLetter(x[0 + e], "user"[e]);
  }

  lemma ShapeHasForm(word: Word, w: string, a: nat, g: nat, n: nat)
    returns (slash: string, blanks: string, name: string, rest: string)
    requires Shape(word, w, a, g, n)
    ensures TagForm(word, w, slash, blanks, name, rest)
  {
    hide NameAt, IsName;
    NamesAreNames(w, g, n);
    NamesEndInLetters(word, w[g..n]);
    assert w[g..n][n - g - 1] == w[n - 1];
    slash, blanks, name, rest := w[1..a], w[a..g], w[g..n], w[n..|w| - 1];
    assert slash == (if a == 1 then "" else "/");
    assert forall i | 0 <= i < g - a :: blanks[i] == w[a + i];
    assert forall i | 0 <= i < |rest| :: rest[i] == w[n + i];
    assert rest == "" ==> w[n] == '>';
    assert w == "<" + w[1..a] + w[a..g] + w[g..n] + w[n..|w| - 1] + ">";
  }

  lemma FormHasShape(word: Word, w: string, slash: string, blanks: string, name: string, rest: string)
    requires TagForm(word, w, slash, blanks, name, rest)
    ensures IsTag(word, w)
  {
    hide NameAt, IsName;
    var a := 1 + |slash|;
    var g := a + |blanks|;
    var n := g + |name|;
    NamesEndInLetters(word, name);
    PartsOfForm(w, slash, blanks, name, rest);
    NamesAreNames(w, g, n);
    assert w[n - 1] == w[g..n][|name| - 1];
    assert Shape(word, w, a, g, n);
  }

  lemma PartsOfForm(w: string, slash: string, blanks: string, name: string, rest: string)
    requires w == "<" + slash + blanks + name + rest + ">"
    ensures var a := 1 + |slash|;
      var g := a + |blanks|;
      var n := g + |name|;
      && |w| == n + |rest| + 1 && w[0] == '<' && w[|w| - 1] == '>'
      && w[1..a] == slash && w[g..n] == name
      && (forall i | 0 <= i < |slash| :: w[1 + i] == slash[i])
      && (forall i | 0 <= i < |blanks| :: w[a + i] == blanks[i])
      && (forall i | a <= i < g :: w[i] == blanks[i - a])
      && (forall i | n <= i < |w| - 1 :: w[i] == rest[i - n])
  {
  }
}
