/** Python string operations the backend relies on: whitespace, `strip`, argument-less `split`,
    `join`, the `in` operator on strings, and `lower`. */
module Text {

  /** Exactly the characters for which `str.isspace` holds; `strip`, `split` and the regular
      expression class \s all use this set. */
  predicate IsSpace(c: char) {
    || '\U{9}' <= c <= '\U{d}'
    || '\U{1c}' <= c <= '\U{20}'
    || c == '\U{85}' || c == '\U{a0}' || c == '\U{1680}'
    || '\U{2000}' <= c <= '\U{200a}'
    || c == '\U{2028}' || c == '\U{2029}' || c == '\U{202f}' || c == '\U{205f}' || c == '\U{3000}'
  }

  predicate AllSpace(s: string) {
    forall i | 0 <= i < |s| :: IsSpace(s[i])
  }

  predicate NoSpace(s: string) {
    forall i | 0 <= i < |s| :: !IsSpace(s[i])
  }

  /** The first index from `i` on that holds no whitespace, or the length of `s`. */
  function SkipSpace(s: string, i: nat): (j: nat)
    requires i <= |s|
    ensures i <= j <= |s|
    ensures forall k | i <= k < j :: IsSpace(s[k])
    ensures j < |s| ==> !IsSpace(s[j])
    decreases |s| - i
  {
    if i < |s| && IsSpace(s[i]) then SkipSpace(s, i + 1) else i
  }

  lemma {:induction false} SkipSpaceIs(s: string, i: nat, j: nat)
    requires i <= j < |s| && !IsSpace(s[j]) && forall k | i <= k < j :: IsSpace(s[k])
    ensures SkipSpace(s, i) == j
    decreases j - i
  {
    if i < j { SkipSpaceIs(s, i + 1, j); }
  }

  function LStrip(s: string): (r: string)
    ensures |r| <= |s| && (r != "" ==> !IsSpace(r[0]))
  {
    s[SkipSpace(s, 0)..]
  }

  function RStrip(s: string): (r: string)
    ensures r <= s && (r != "" ==> !IsSpace(r[|r| - 1])) && AllSpace(s[|r|..])
  {
    if s == "" || !IsSpace(s[|s| - 1]) then s else RStrip(s[..|s| - 1])
  }

  function Strip(s: string): (r: string)
    ensures |r| <= |s|
    ensures r != "" ==> !IsSpace(r[0]) && !IsSpace(r[|r| - 1])
  {
    RStrip(LStrip(s))
  }

  /** Text that neither starts nor ends with whitespace is left alone, so `strip` is idempotent. */
  lemma StripFixes(s: string)
    ensures (s == "" || (!IsSpace(s[0]) && !IsSpace(s[|s| - 1]))) <==> Strip(s) == s
    ensures Strip(Strip(s)) == Strip(s)
  {
  }

  /** Length of the longest prefix without whitespace. */
  function WordPrefix(s: string): (n: nat)
    ensures n <= |s| && NoSpace(s[..n]) && (n < |s| ==> IsSpace(s[n]))
  {
    if s == "" || IsSpace(s[0]) then 0 else 1 + WordPrefix(s[1..])
  }

  /** `s.split()`. */
  function Split(s: string): (words: seq<string>)
    ensures AreWords(words)
    decreases |s|
  {
    if s == "" then []
    else if IsSpace(s[0]) then Split(s[1..])
    else
      var n := WordPrefix(s);
      [s[..n]] + Split(s[n..])
  }

  predicate AreWords(words: seq<string>) {
    forall i | 0 <= i < |words| :: words[i] != "" && NoSpace(words[i])
  }

  /** `" ".join(words)`. */
  function Join(words: seq<string>): string {
    if |words| == 0 then ""
    else if |words| == 1 then words[0]
    else words[0] + " " + Join(words[1..])
  }

  /** `split` undoes `join`: nothing about a word sequence is lost by joining it. */
  lemma {:induction false} SplitJoin(words: seq<string>)
    requires AreWords(words)
    ensures Split(Join(words)) == words
  {
    if |words| == 0 {
    } else {
      var s, w := Join(words), words[0];
      assert |words| == 1 ==> s == w;
      assert s[..|w|] == w;
      assert !IsSpace(s[0]) by { assert s[0] == w[0]; }
      WordPrefixIs(s, |w|);
      if |words| == 1 {
        assert s[|w|..] == "";
      } else {
        SplitJoin(words[1..]);
        assert s[|w|..] == " " + Join(words[1..]);
        assert s[|w|..][1..] == Join(words[1..]);
      }
    }
  }

  lemma {:induction false} WordPrefixIs(s: string, n: nat)
    requires n <= |s| && NoSpace(s[..n]) && (n < |s| ==> IsSpace(s[n]))
    ensures WordPrefix(s) == n
  {
    if n > 0 {
      assert s[0] == s[..n][0];
      assert s[1..][..n - 1] == s[..n][1..];
      WordPrefixIs(s[1..], n - 1);
    }
  }

  predicate OccursAt(w: string, s: string, p: nat) {
    p + |w| <= |s| && s[p..p + |w|] == w
  }

  lemma OccursElementwise(w: string, s: string, p: nat)
    ensures OccursAt(w, s, p) <==> p + |w| <= |s| && forall i | 0 <= i < |w| :: s[p + i] == w[i]
  {
    if p + |w| <= |s| {
      var v := s[p..p + |w|];
      assert forall i | 0 <= i < |w| :: v[i] == s[p + i];
    }
  }

  lemma OccursWithin(w: string, t: string, s: string, q: nat, p: nat)
    requires OccursAt(w, t, q) && OccursAt(t, s, p)
    ensures OccursAt(w, s, p + q)
  {
    SubSlice(s, p, p + |t|, q, q + |w|);
  }

  /** `w in s`. */
  predicate Contains(s: string, w: string) {
    exists p: nat | p <= |s| :: OccursAt(w, s, p)
  }

  /** A slice of a slice is a slice. */
  lemma SubSlice<T>(s: seq<T>, p: nat, e: nat, i: nat, j: nat)
    requires p <= e <= |s| && i <= j <= e - p
    ensures s[p..e][i..j] == s[p + i..p + j]
  {
    var a, b := s[p..e][i..j], s[p + i..p + j];
    assert forall k | 0 <= k < |a| :: a[k] == b[k];
  }

  lemma ContainsTransitive(s: string, t: string, w: string)
    requires Contains(s, t) && Contains(t, w)
    ensures Contains(s, w)
  {
    var p: nat :| p <= |s| && OccursAt(t, s, p);
    var q: nat :| q <= |t| && OccursAt(w, t, q);
    OccursWithin(w, t, s, q, p);
  }

  /** `c` matches the lower-case ASCII letter `x` under re.IGNORECASE, for the letters the backend's patterns use. */
  predicate SameLetter(c: char, x: char) {
    || c == x
    || ('a' <= x <= 'z' && c == 'A' + (x - 'a'))
    || (x == 'i' && (c == '\U{130}' || c == '\U{131}'))
    || (x == 's' && c == '\U{17f}')
  }

  /** `s[g..n]` is `name`, in any case. */
  predicate SpellsAt(s: string, g: nat, n: nat, name: string) {
    n == g + |name| <= |s| && forall i | 0 <= i < |name| :: SameLetter(s[g + i], name[i])
  }

  predicate IsAscii(s: string) {
    forall i | 0 <= i < |s| :: s[i] < '\U{80}'
  }

  /** What the model needs of `str.lower`, whose full table is the Unicode database's: `lower` is the
      function itself and `settled` the set of characters it maps to themselves. Lowering yields
      settled text, settled text is left alone, blanks and '|' are neither made nor lost, and an
      ASCII substring of a lowered text survives in any longer text (only non-ASCII letters depend
      on their neighbours). */
  datatype Lowering = Lowering(lower: string -> string, settled: char -> bool) {
    ghost predicate Lawful() {
      && (forall s :: Settled(lower(s)))
      && (forall s :: Settled(s) ==> lower(s) == s)
      && settled(' ')
      && (forall s :: '|' in lower(s) <==> '|' in s)
      && (forall s, t, w :: Contains(t, s) && IsAscii(w) && Contains(lower(s), w) ==> Contains(lower(t), w))
    }

    predicate Settled(s: string) {
      forall i | 0 <= i < |s| :: settled(s[i])
    }
  }

  ghost function Unchanged(): (l: Lowering)
    ensures l.Lawful()
  {
    var l := Lowering((s: string) => s, (c: char) => true);
    assert forall s, t, w | Contains(t, s) && IsAscii(w) && Contains(l.lower(s), w) :: Contains(l.lower(t), w) by {
      forall s, t, w | Contains(t, s) && IsAscii(w) && Contains(l.lower(s), w) ensures Contains(l.lower(t), w) {
        ContainsTransitive(t, s, w);
      }
    }
    l
  }

  type Lower = l: Lowering | l.Lawful() ghost witness Unchanged()
}
