/** The prompt seen through the pattern instead of the literal delimiters: where the data can still join
    with the template's own text to form a delimiter-like tag. */
module PromptPattern {
  import opened Text
  import opened Prompt

  /** A match of `_TAG` begins at `i`. */
  ghost predicate StartsTag(word: Word, s: string, i: nat) {
    exists m: nat :: i <= m <= |s| && IsTag(word, s[i..m])
  }

  /** The head of a tag begins at `i`, its name ending within `s` or with it. In tag-free text no '>' can
      follow, so the tag is left open. */
  ghost predicate LeavesOpen(word: Word, s: string, i: nat) {
    i < |s| && exists a: nat, g: nat, n: nat :: Head(word, s[i..] + "<", a, g, n)
  }

  ghost predicate AllClosed(word: Word, s: string) {
    forall i: nat | i < |s| :: !LeavesOpen(word, s, i)
  }

  /** What follows data in the template: '<', or a line feed and '<', and somewhere a '>'. */
  predicate Followed(P: string, end: nat) {
    && end + 2 < |P| && (P[end] == '<' || (P[end] == '\n' && P[end + 1] == '<'))
    && (exists e :: end < e < |P| && P[e] == '>')
  }

  /** Whether a head stands at the front of a text depends on nothing after its word boundary. */
  lemma HeadsAgree(word: Word, w: string, v: string, a: nat, g: nat, n: nat)
    requires Head(word, w, a, g, n) && n < |v| && w[..n] == v[..n] && word(w[n]) == word(v[n])
    ensures Head(word, v, a, g, n)
  {
    assert forall i | 0 <= i < n :: w[i] == w[..n][i] == v[i];
    var j :| 0 <= j < |NAMES| && SpellsAt(w, g, n, NAMES[j]);
    assert SpellsAt(v, g, n, NAMES[j]);
  }

  /** A head that begins in the data ends with it or before. */
  lemma HeadEndsInData(word: Word, w: string, k: nat, a: nat, g: nat, n: nat)
    requires Head(word, w, a, g, n) && 0 < k < |w|
    requires w[k] == '<' || (w[k] == '\n' && k + 1 < |w| && w[k + 1] == '<')
    ensures n <= k
  {
    hide NameAt;
    NameUnique(w, g, n, n);
    assert !IsSpace('<');
    assert w[k] == '\n' ==> !(g <= k < n);
  }

  /** Between sanitised data and the template: a match begins in the data exactly where it leaves a tag open. */
  lemma DataStartsTag(word: Word, P: string, D: string, d: nat, i: nat)
    requires OccursAt(D, P, d) && TagFree(word, D) && i < |D| && Followed(P, d + |D|)
    ensures StartsTag(word, P, d + i) <==> LeavesOpen(word, D, i)
  {
    hide TagFree, IsTag, Head;
    if StartsTag(word, P, d + i) {
      var m: nat :| d + i <= m <= |P| && IsTag(word, P[d + i..m]);
      StartedIsOpen(word, P, D, d, i, m);
    }
    if LeavesOpen(word, D, i) {
      var a: nat, g: nat, n: nat :| Head(word, D[i..] + "<", a, g, n);
      OpenIsStarted(word, P, D, d, i, a, g, n);
    }
  }

  lemma StartedIsOpen(word: Word, P: string, D: string, d: nat, i: nat, m: nat)
    requires OccursAt(D, P, d) && TagFree(word, D) && i < |D| && Followed(P, d + |D|)
    requires d + i <= m <= |P| && IsTag(word, P[d + i..m])
    ensures LeavesOpen(word, D, i)
  {
    hide Head;
    var k, w, v := |D| - i, P[d + i..m], D[i..] + "<";
    assert P[d..d + |D|] == D;
    if m <= d + |D| {
      SubSlice(P, d, d + |D|, i, m - d);
    }
    var a: nat, g: nat, n: nat :| Shape(word, w, a, g, n);
    assert w[k] == P[d + |D|];
    HeadEndsInData(word, w, k, a, g, n);
    assert w[..k] == P[d..d + |D|][i..] == v[..k];
    assert w[..n] == w[..k][..n] && v[..n] == v[..k][..n];
    assert n < k ==> w[n] == w[..k][n] == v[..k][n] == v[n];
    HeadsAgree(word, w, v, a, g, n);
  }

  lemma OpenIsStarted(word: Word, P: string, D: string, d: nat, i: nat, a: nat, g: nat, n: nat)
    requires OccursAt(D, P, d) && i < |D| && Followed(P, d + |D|)
    requires Head(word, D[i..] + "<", a, g, n)
    ensures StartsTag(word, P, d + i)
  {
    hide Head;
    var k, v := |D| - i, D[i..] + "<";
    HeadEndsInData(word, v, k, a, g, n);
    var e := Find(P, d + i + n, '>');
    var w := P[d + i..e + 1];
    assert P[d..d + |D|] == D;
    assert v[..k] == P[d..d + |D|][i..] == P[d + i..d + |D|];
    assert forall j | 0 <= j < k :: v[j] == v[..k][j] == P[d + i..d + |D|][j] == P[d + i + j];
    assert v[..n] == w[..n];
    HeadsAgree(word, v, w, a, g, n);
    assert Shape(word, w, a, g, n);
  }

  /** In the template itself '<' stands only where a delimiter begins. */
  lemma BracketsOfTemplate(P: string, L: string, T: string, p: nat)
    requires Pieces(P, L, T) && p < |P| && P[p] == '<'
    requires !(10 <= p < 10 + |L|) && !(34 + |L| <= p < 34 + |L| + |T|)
    ensures p in {Place(0, |L|, |T|), Place(1, |L|, |T|), Place(2, |L|, |T|), Place(3, |L|, |T|)}
  {
    hide OccursAt;
    if p < 10 {
      Bracket(P, BEFORE_LOCATION, 0, p);
    } else if p < 34 + |L| {
      Bracket(P, BETWEEN, 10 + |L|, p);
    } else {
      Bracket(P, AFTER_TEXT, 34 + |L| + |T|, p);
    }
  }

  lemma Bracket(P: string, X: string, d: nat, p: nat)
    requires X in {BEFORE_LOCATION, BETWEEN, AFTER_TEXT} && OccursAt(X, P, d) && d <= p < d + |X| && P[p] == '<'
    ensures X == BEFORE_LOCATION ==> p == d
    ensures X == BETWEEN ==> p in {d, d + 12}
    ensures X == AFTER_TEXT ==> p == d + 1
  {
    OccursElementwise(X, P, d);
    hide OccursAt;
    assert X[p - d] == P[d + (p - d)];
  }

  lemma DataIsFollowed(P: string, L: string, T: string)
    requires Pieces(P, L, T)
    ensures Followed(P, 10 + |L|) && Followed(P, 34 + |L| + |T|)
  {
    var l, t := 10 + |L|, 34 + |L| + |T|;
    OccursElementwise(BETWEEN, P, l);
    OccursElementwise(AFTER_TEXT, P, t);
    hide OccursAt;
    assert P[l + 0] == BETWEEN[0] && P[l + 10] == BETWEEN[10];
    assert P[t + 0] == AFTER_TEXT[0] && P[t + 1] == AFTER_TEXT[1] && P[t + 12] == AFTER_TEXT[12];
  }

  function Places(L: string, T: string): set<nat> {
    {Place(0, |L|, |T|), Place(1, |L|, |T|), Place(2, |L|, |T|), Place(3, |L|, |T|)}
  }

  /** Where the pattern matches in a filled-in template. */
  lemma MatchesOfTemplate(word: Word, P: string, L: string, T: string, p: nat)
    requires Pieces(P, L, T) && TagFree(word, L) && TagFree(word, T) && p < |P|
    ensures StartsTag(word, P, p) <==>
      || p in Places(L, T)
      || (10 <= p < 10 + |L| && LeavesOpen(word, L, p - 10))
      || (34 + |L| <= p < 34 + |L| + |T| && LeavesOpen(word, T, p - 34 - |L|))
  {
    hide IsTag, LeavesOpen, OccursAt, TagFree, Followed, StartsTag;
    DataIsFollowed(P, L, T);
    if 10 <= p < 10 + |L| {
      DataStartsTag(word, P, L, 10, p - 10);
    } else if 34 + |L| <= p < 34 + |L| + |T| {
      DataStartsTag(word, P, T, 34 + |L|, p - 34 - |L|);
    } else {
      if StartsTag(word, P, p) {
        MatchStartsWithBracket(word, P, p);
        BracketsOfTemplate(P, L, T, p);
      }
      if p in Places(L, T) {
        var k: nat :| k < 4 && p == Place(k, |L|, |T|);
        DelimiterMatches(word, P, L, T, k);
      }
    }
  }

  lemma MatchStartsWithBracket(word: Word, P: string, p: nat)
    requires p < |P| && StartsTag(word, P, p)
    ensures P[p] == '<'
  {
  }

  lemma DelimiterMatches(word: Word, P: string, L: string, T: string, k: nat)
    requires Pieces(P, L, T) && k < 4
    ensures StartsTag(word, P, Place(k, |L|, |T|))
  {
    hide IsTag;
    DelimiterIsTag(word, k);
    DelimiterHere(P, L, T, k);
  }

  /** The pattern, tried at every position of the whole prompt, matches at the template's four delimiters. It
      matches nowhere else exactly when neither sanitised input leaves a tag open. */
  lemma OnlyDelimitersMatch(word: Word, text: string, location: string)
    ensures var P, L, T := BuildUserPrompt(word, text, location), Sanitize(word, location), Sanitize(word, text);
      && (forall p: nat | p < |P| && p in Places(L, T) :: StartsTag(word, P, p))
      && ((forall p: nat | p < |P| && StartsTag(word, P, p) :: p in Places(L, T))
          <==> AllClosed(word, L) && AllClosed(word, T))
  {
    hide Sanitize, IsTag, StartsTag, LeavesOpen, OccursAt, TagFree, Followed, BuildUserPrompt;
    var L, T, P := Sanitize(word, location), Sanitize(word, text), BuildUserPrompt(word, text, location);
    SanitizeLeavesNoTag(word, text);
    SanitizeLeavesNoTag(word, location);
    PiecesOfPrompt(word, text, location);
    forall p: nat | p < |P|
      ensures StartsTag(word, P, p) <==>
        || p in Places(L, T)
        || (10 <= p < 10 + |L| && LeavesOpen(word, L, p - 10))
        || (34 + |L| <= p < 34 + |L| + |T| && LeavesOpen(word, T, p - 34 - |L|))
    {
      MatchesOfTemplate(word, P, L, T, p);
    }
    forall i: nat | i < |L| ensures StartsTag(word, P, 10 + i) <==> LeavesOpen(word, L, i) {
      assert 10 + i < |P|;
    }
    forall i: nat | i < |T| ensures StartsTag(word, P, 34 + |L| + i) <==> LeavesOpen(word, T, i) {
      assert 34 + |L| + i < |P|;
    }
  }

  /** So the guarantee is about the literal delimiters only. A location ending in an unclosed tag, which
      sanitising leaves alone, swallows the template's own closing delimiter. */
  lemma UnclosedTagSwallowsDelimiter(word: Word, text: string)
    ensures Sanitize(word, "<user") == "<user" && !AllClosed(word, "<user")
    ensures var P := BuildUserPrompt(word, text, "<user"); P[10..26] == "<user</location>" && IsTag(word, P[10..26])
  {
    hide Sanitize;
    var P, w := BuildUserPrompt(word, text, "<user"), "<user</location>";
    UnclosedIsTagFree(word, "<user");
    SanitizeFixesExactlyTagFree(word, "<user");
    PiecesOfPrompt(word, text, "<user");
    DelimiterHere(P, "<user", Sanitize(word, text), 1);
    assert w == "<user" + DELIMITERS[1];
    assert P[10..26] == P[10..15] + P[15..26];
    assert SpellsAt(w, 1, 5, NAMES[4]);
    assert Shape(word, w, 1, 1, 5);
    HeadsAgree(word, w, "<user"[0..] + "<", 1, 1, 5);
    assert LeavesOpen(word, "<user", 0);
  }

  lemma UnclosedIsTagFree(word: Word, s: string)
    requires '>' !in s
    ensures TagFree(word, s)
  {
    forall i: nat, j: nat | i <= j <= |s| ensures !IsTag(word, s[i..j]) {
      var w := s[i..j];
      assert w == "" || w[|w| - 1] == s[j - 1];
    }
  }
}
