/** The text that is hashed to key the triage cache. */
module CacheKey {
  import opened Text

  /** `" ".join(s.lower().split())`. */
  function NormalForm(l: Lower, s: string): string {
    Join(Split(l.lower(s)))
  }

  /** What `content_hash` hashes. */
  function KeyText(l: Lower, text: string, location: string): string {
    NormalForm(l, text) + "|" + NormalForm(l, location)
  }

  lemma {:induction false} SplitAddsNothing(s: string, i: nat, c: char)
    requires i < |Split(s)| && c in Split(s)[i]
    ensures c in s
    decreases |s|
  {
    if IsSpace(s[0]) {
      SplitAddsNothing(s[1..], i, c);
    } else if i > 0 {
      SplitAddsNothing(s[WordPrefix(s)..], i - 1, c);
    }
  }

  lemma {:induction false} JoinAddsBlanks(words: seq<string>, c: char)
    requires c in Join(words)
    ensures c == ' ' || exists i :: 0 <= i < |words| && c in words[i]
  {
    if |words| > 1 && c !in words[0] && c != ' ' {
      JoinAddsBlanks(words[1..], c);
      var i :| 0 <= i < |words| - 1 && c in words[1..][i];
      assert c in words[i + 1];
    }
  }

  lemma NormalFormAddsBlanks(l: Lower, s: string, c: char)
    requires c in NormalForm(l, s) && c != ' '
    ensures c in l.lower(s)
  {
    var words := Split(l.lower(s));
    JoinAddsBlanks(words, c);
    var i :| 0 <= i < |words| && c in words[i];
    SplitAddsNothing(l.lower(s), i, c);
  }

  /** Normalising is idempotent, and loses nothing but case and spacing. */
  lemma NormalFormIsNormal(l: Lower, s: string)
    ensures NormalForm(l, NormalForm(l, s)) == NormalForm(l, s)
    ensures Split(NormalForm(l, s)) == Split(l.lower(s))
  {
    SplitJoin(Split(l.lower(s)));
    NormalFormSettled(l, s);
  }

  lemma NormalFormSettled(l: Lower, s: string)
    ensures l.Settled(NormalForm(l, s))
  {
    var n := NormalForm(l, s);
    forall i | 0 <= i < |n| ensures l.settled(n[i]) {
      if n[i] != ' ' {
        NormalFormAddsBlanks(l, s, n[i]);
        assert l.Settled(l.lower(s));
      }
    }
  }

  /** Two complaints whose texts hold no '|' share a key exactly when their texts agree word by word
      after lowering, and so do their locations. */
  lemma KeysAgreeExactly(l: Lower, text: string, location: string, text': string, location': string)
    requires '|' !in text && '|' !in text'
    ensures KeyText(l, text, location) == KeyText(l, text', location') <==>
      Split(l.lower(text)) == Split(l.lower(text')) && Split(l.lower(location)) == Split(l.lower(location'))
  {
    NormalFormIsNormal(l, text);
    NormalFormIsNormal(l, text');
    NormalFormIsNormal(l, location);
    NormalFormIsNormal(l, location');
    if KeyText(l, text, location) == KeyText(l, text', location') {
      NoBar(l, text);
      NoBar(l, text');
      FirstBar(NormalForm(l, text), NormalForm(l, location), NormalForm(l, text'), NormalForm(l, location'));
    }
  }

  lemma NoBar(l: Lower, s: string)
    requires '|' !in s
    ensures '|' !in NormalForm(l, s)
  {
    if '|' in NormalForm(l, s) {
      NormalFormAddsBlanks(l, s, '|');
    }
  }

  lemma {:induction false} FirstBar(a: string, b: string, c: string, d: string)
    requires '|' !in a && '|' !in c && a + "|" + b == c + "|" + d
    ensures a == c && b == d
  {
    assert a != "" ==> (a + "|" + b)[0] == a[0];
    assert c != "" ==> (c + "|" + d)[0] == c[0];
    assert (a + "|" + b)[1..] == (c + "|" + d)[1..];
    if a != "" && c != "" {
      assert (a + "|" + b)[1..] == a[1..] + "|" + b;
      assert (c + "|" + d)[1..] == c[1..] + "|" + d;
      FirstBar(a[1..], b, c[1..], d);
    } else {
      assert (a + "|" + b)[0] == (c + "|" + d)[0];
    }
  }

  // ---------------------------------------------------------------- collisions

  /** The form of every normalised text: single blanks, and only between words. */
  predicate Tidy(s: string) {
    && (s != "" ==> !IsSpace(s[0]) && !IsSpace(s[|s| - 1]))
    && (forall i | 0 <= i < |s| && IsSpace(s[i]) :: s[i] == ' ')
    && (forall i | 0 < i < |s| :: !(s[i - 1] == ' ' && s[i] == ' '))
  }

  lemma {:induction false} JoinIsTidy(words: seq<string>)
    requires AreWords(words)
    ensures Tidy(Join(words)) && (words != [] ==> Join(words) != "")
  {
    if |words| > 1 {
      var rest := words[1..];
      JoinIsTidy(rest);
      TidyAfterWord(words[0], Join(rest));
    }
  }

  lemma TidyAfterWord(w: string, rest: string)
    requires w != "" && NoSpace(w) && Tidy(rest) && rest != ""
    ensures Tidy(w + " " + rest)
  {
    var s := w + " " + rest;
    forall i | 0 <= i < |s| ensures IsSpace(s[i]) ==> s[i] == ' ' {
      assert i < |w| ==> s[i] == w[i];
    }
    forall i | 0 < i < |s| ensures !(s[i - 1] == ' ' && s[i] == ' ') {
      assert i - 1 < |w| ==> s[i - 1] == w[i - 1];
    }
  }

  lemma {:induction false} TidyIsJoined(s: string)
    requires Tidy(s)
    ensures Join(Split(s)) == s
    decreases |s|
  {
    if s != "" {
      assert !IsSpace(s[0]);
      var n := WordPrefix(s);
      if n < |s| {
        TidyRest(s, n);
        TidyIsJoined(s[n + 1..]);
        SplitPastBlank(s, n);
        hide Split, Join, Tidy, WordPrefix;
        assert s == s[..n] + " " + s[n + 1..];
      } else {
        SplitOneWord(s);
      }
    }
  }

  lemma SplitOneWord(s: string)
    requires s != "" && !IsSpace(s[0]) && WordPrefix(s) == |s|
    ensures Split(s) == [s]
  {
    assert s[|s|..] == "" && s[..|s|] == s;
  }

  lemma TidyRest(s: string, n: nat)
    requires Tidy(s) && n < |s| && IsSpace(s[n])
    ensures n + 1 < |s| && s[n] == ' ' && !IsSpace(s[n + 1]) && Tidy(s[n + 1..])
  {
  }

  lemma SplitPastBlank(s: string, n: nat)
    requires s != "" && !IsSpace(s[0]) && n == WordPrefix(s) && n + 1 < |s| && !IsSpace(s[n + 1])
    ensures var rest := Split(s[n + 1..]);
      rest != [] && Split(s) == [s[..n]] + rest && Join(Split(s)) == s[..n] + " " + Join(rest)
  {
    assert s[n..][1..] == s[n + 1..];
    var rest := Split(s[n + 1..]);
    assert Split(s) == [s[..n]] + rest;
    assert ([s[..n]] + rest)[1..] == rest;
  }

  /** A bar that could pass for the separator: there is no blank beside it. */
  predicate SpareBar(k: string, i: nat) {
    i < |k| && k[i] == '|' && (i == 0 || k[i - 1] != ' ') && (i + 1 == |k| || k[i + 1] != ' ')
  }

  lemma CutAtBar(k: string, i: nat)
    requires Tidy(k) && SpareBar(k, i)
    ensures Tidy(k[..i]) && Tidy(k[i + 1..])
  {
  }

  lemma KeyIsTidy(l: Lower, text: string, location: string)
    ensures Tidy(KeyText(l, text, location))
    ensures SpareBar(KeyText(l, text, location), |NormalForm(l, text)|)
  {
    JoinIsTidy(Split(l.lower(text)));
    JoinIsTidy(Split(l.lower(location)));
    TidyAroundBar(NormalForm(l, text), NormalForm(l, location));
  }

  lemma TidyAroundBar(a: string, b: string)
    requires Tidy(a) && Tidy(b)
    ensures Tidy(a + "|" + b) && SpareBar(a + "|" + b, |a|)
  {
    var k := a + "|" + b;
    assert forall i | 0 <= i < |k| :: k[i] == if i < |a| then a[i] else if i == |a| then '|' else b[i - |a| - 1];
  }

  lemma TidyIsNormal(l: Lower, s: string)
    requires Tidy(s) && l.Settled(s)
    ensures NormalForm(l, s) == s
  {
    TidyIsJoined(s);
  }

  predicate SameWords(l: Lower, text: string, location: string, text': string, location': string) {
    Split(l.lower(text)) == Split(l.lower(text')) && Split(l.lower(location)) == Split(l.lower(location'))
  }

  /** Exactly when a complaint shares its key with one that differs in more than case and spacing: its key holds
      a second bar, in the text or the location, that could pass for the separator. */
  lemma CollidesExactly(l: Lower, text: string, location: string)
    ensures
      (exists text', location' :: KeyText(l, text', location') == KeyText(l, text, location)
        && !SameWords(l, text, location, text', location'))
      <==> (exists i: nat :: i != |NormalForm(l, text)| && SpareBar(KeyText(l, text, location), i))
  {
    hide NormalForm, SpareBar;
    var k := KeyText(l, text, location);
    if text', location' :| KeyText(l, text', location') == k && !SameWords(l, text, location, text', location') {
      KeyIsTidy(l, text', location');
      AgreeingKeys(l, text, location, text', location');
      assert SpareBar(k, |NormalForm(l, text')|);
    }
    if i: nat :| i != |NormalForm(l, text)| && SpareBar(k, i) {
      var text', location' := OtherReading(l, text, location, i);
      assert KeyText(l, text', location') == k;
    }
  }

  /** Keys that part at the same place come from the same words. */
  lemma AgreeingKeys(l: Lower, text: string, location: string, text': string, location': string)
    requires KeyText(l, text, location) == KeyText(l, text', location')
    ensures SameWords(l, text, location, text', location') <==> |NormalForm(l, text)| == |NormalForm(l, text')|
  {
    NormalFormIsNormal(l, text);
    NormalFormIsNormal(l, text');
    NormalFormIsNormal(l, location);
    NormalFormIsNormal(l, location');
    var k, a, b := KeyText(l, text, location), NormalForm(l, text), NormalForm(l, text');
    assert SameWords(l, text, location, text', location') ==> a == b;
    hide NormalForm;
    if |a| == |b| {
      assert k[..|a|] == a && k[..|b|] == b;
      assert k[|a| + 1..] == NormalForm(l, location) && k[|b| + 1..] == NormalForm(l, location');
    }
  }

  lemma OtherReading(l: Lower, text: string, location: string, i: nat) returns (text': string, location': string)
    requires i != |NormalForm(l, text)| && SpareBar(KeyText(l, text, location), i)
    ensures KeyText(l, text', location') == KeyText(l, text, location)
    ensures !SameWords(l, text, location, text', location')
  {
    var k := KeyText(l, text, location);
    KeyIsTidy(l, text, location);
    KeySettled(l, text, location, i);
    CutAtBar(k, i);
    text', location' := k[..i], k[i + 1..];
    CutKey(l, k, i);
    hide KeyText, NormalForm, Tidy, SameWords;
    AgreeingKeys(l, text, location, text', location');
  }

  lemma CutKey(l: Lower, k: string, i: nat)
    requires i < |k| && k[i] == '|' && Tidy(k[..i]) && Tidy(k[i + 1..]) && l.Settled(k)
    ensures KeyText(l, k[..i], k[i + 1..]) == k && NormalForm(l, k[..i]) == k[..i]
  {
    hide Tidy, NormalForm;
    TidyIsNormal(l, k[..i]);
    TidyIsNormal(l, k[i + 1..]);
    assert k == k[..i] + "|" + k[i + 1..];
  }

  lemma KeySettled(l: Lower, text: string, location: string, i: nat)
    requires i != |NormalForm(l, text)| && i < |KeyText(l, text, location)| && KeyText(l, text, location)[i] == '|'
    ensures l.Settled(KeyText(l, text, location))
  {
    NormalFormSettled(l, text);
    NormalFormSettled(l, location);
    var k, a, b := KeyText(l, text, location), NormalForm(l, text), NormalForm(l, location);
    hide NormalForm;
    assert forall j | 0 <= j < |k| :: k[j] == if j < |a| then a[j] else if j == |a| then '|' else b[j - |a| - 1];
    assert l.settled('|');
  }

  predicate PlainWord(l: Lower, w: string) {
    w != "" && NoSpace(w) && l.Settled(w)
  }

  /** The simplest case: a '|' between plain words can be traded for the separator. */
  lemma BarInTextCollides(l: Lower, x: string, y: string, z: string)
    requires PlainWord(l, x) && PlainWord(l, y) && PlainWord(l, z) && l.settled('|')
    ensures KeyText(l, x + "|" + y, z) == KeyText(l, x, y + "|" + z)
  {
    PlainWordIsNormal(l, x);
    PlainWordIsNormal(l, z);
    PlainWordIsNormal(l, x + "|" + y);
    PlainWordIsNormal(l, y + "|" + z);
  }

  lemma PlainWordIsNormal(l: Lower, w: string)
    requires PlainWord(l, w)
    ensures NormalForm(l, w) == w
  {
    SplitJoin([w]);
    assert Join([w]) == w;
  }
}
