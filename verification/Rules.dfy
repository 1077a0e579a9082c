/** The deterministic keyword classifier that serves when no language model does. */
module Rules {
  import opened Domain
  import opened Text
  import opened Contract

  type Table = seq<(Category, seq<string>)>

  const KEYWORDS: Table := [
    (Water, ["water", "pipe", "burst", "leak", "flood", "tap", "supply", "pani", "tanker", "main line",
             "overflowing tank", "no water"]),
    (Electricity, ["electric", "electricity", "power", "outage", "load shedding", "loadshedding", "transformer",
                   "wire", "bijli", "voltage", "meter", "shock", "sparking"]),
    (Sanitation, ["garbage", "trash", "waste", "sewage", "sewer", "gutter", "drain", "smell", "kachra", "overflow",
                  "nala", "dump", "mosquito"]),
    (Roads, ["road", "pothole", "sarak", "asphalt", "speed breaker", "footpath", "crack", "bridge", "construction",
             "traffic signal", "manhole"]),
    (Streetlights, ["streetlight", "street light", "street-light", "lamp", "pole light", "light pole", "dark street"])]

  const HIGH_WORDS := ["burst", "flood", "fire", "sparking", "shock", "live wire", "danger", "emergency", "urgent",
    "injur", "accident", "collapse", "child", "hospital", "since fajr", "since yesterday", "entering",
    "open manhole", "no water for", "3 days", "three days"]

  const LOW_WORDS := ["suggestion", "request", "minor", "whenever possible", "cosmetic", "paint", "faded"]

  /** How many of `words` occur in `text`. */
  function Score(text: string, words: seq<string>): (n: nat)
    ensures n <= |words|
    ensures n > 0 <==> exists i :: 0 <= i < |words| && Contains(text, words[i])
  {
    if words == [] then 0
    else (if Contains(text, words[0]) then 1 else 0) + Score(text, words[1..])
  }

  function Scores(text: string, table: Table): (scores: seq<nat>)
    ensures |scores| == |table|
    ensures forall i | 0 <= i < |table| :: scores[i] == Score(text, table[i].1)
  {
    seq(|table|, i requires 0 <= i < |table| => Score(text, table[i].1))
  }

  /** `max(scores, key=...)` yields the first of the greatest. */
  function FirstMax(scores: seq<nat>): (k: nat)
    requires scores != []
    ensures k < |scores|
    ensures forall i | 0 <= i < |scores| :: scores[i] <= scores[k]
    ensures forall i | 0 <= i < k :: scores[i] < scores[k]
  {
    if |scores| == 1 then 0
    else
      var k := FirstMax(scores[..|scores| - 1]);
      if scores[|scores| - 1] > scores[k] then |scores| - 1 else k
  }

  function BestScore(text: string, table: Table): nat
    requires table != []
  {
    var scores := Scores(text, table);
    scores[FirstMax(scores)]
  }

  function Classify(text: string, table: Table): Category
    requires table != []
  {
    if BestScore(text, table) > 0 then table[FirstMax(Scores(text, table))].0 else Other
  }

  function Urgency(text: string): Priority {
    if Score(text, HIGH_WORDS) > 0 then High
    else if Score(text, LOW_WORDS) > 0 then Low
    else Normal
  }

  /** `_WS.sub(" ", text)`. */
  function Collapse(text: string): string
    decreases |text|
  {
    if text == "" then ""
    else if IsSpace(text[0]) then " " + Collapse(text[SkipSpace(text, 0)..])
    else [text[0]] + Collapse(text[1..])
  }

  /** `category.value.capitalize()`. */
  function Capitalized(c: Category): (s: string)
    ensures 5 <= |s| <= 12 && 'A' <= s[0] <= 'Z' && forall i | 0 < i < |s| :: 'a' <= s[i] <= 'z'
  {
    var v := CategoryValue(c);
    ['A' + (v[0] - 'a')] + v[1..]
  }

  const ELLIPSIS := ['\U{2026}']

  function Heading(category: Category): string {
    Capitalized(category) + " issue at "
  }

  function FullSummary(category: Category, text: string, location: string): string {
    Heading(category) + Strip(location) + ": " + Strip(Collapse(text))
  }

  function Shorten(full: string): string {
    if |full| > SUMMARY_MAX then RStrip(full[..SUMMARY_MAX - 1]) + ELLIPSIS else full
  }

  function Confidence(category: Category, matched: nat): real {
    if category == Other then 0.3
    else if 0.5 + 0.1 * matched as real < 0.9 then 0.5 + 0.1 * matched as real
    else 0.9
  }

  /** `RuleBasedTriage.triage`; None stands for the validation error its last line may raise. */
  function Triage(lower: Lower, text: string, location: string): Option<TriageResult> {
    var lowered := lower.lower(text);
    var category := Classify(lowered, KEYWORDS);
    Construct(category, Urgency(lowered), Shorten(FullSummary(category, text, location)),
              Confidence(category, BestScore(lowered, KEYWORDS)))
  }

  ghost predicate Distinct(table: Table) {
    && (forall i, j | 0 <= i < j < |table| :: table[i].0 != table[j].0)
    && (forall i | 0 <= i < |table| :: table[i].0 != Other)
  }

  lemma KeywordsDistinct()
    ensures Distinct(KEYWORDS)
  {
  }

  /** The category is the first declared one that no other outscores, and Other exactly when no keyword
      of any category occurs. */
  lemma CategoryIsFirstBest(text: string, table: Table, k: nat)
    requires Distinct(table) && k < |table|
    ensures Classify(text, table) == table[k].0 <==>
      && Score(text, table[k].1) > 0
      && (forall i | 0 <= i < |table| :: Score(text, table[i].1) <= Score(text, table[k].1))
      && (forall i | 0 <= i < k :: Score(text, table[i].1) < Score(text, table[k].1))
    ensures Classify(text, table) == Other <==>
      forall i, j | 0 <= i < |table| && 0 <= j < |table[i].1| :: !Contains(text, table[i].1[j])
  {
    hide Contains;
    var scores := Scores(text, table);
    var b := FirstMax(scores);
    assert scores[b] == Score(text, table[b].1);
    assert b < k ==> table[b].0 != table[k].0;
    assert k < b ==> table[k].0 != table[b].0;
    if scores[b] == 0 {
      forall i, j | 0 <= i < |table| && 0 <= j < |table[i].1| ensures !Contains(text, table[i].1[j]) {
        assert scores[i] == Score(text, table[i].1) == 0;
      }
    } else {
      var j :| 0 <= j < |table[b].1| && Contains(text, table[b].1[j]);
    }
  }

  lemma {:induction false} ScoreGrows(lower: Lower, part: string, whole: string, words: seq<string>)
    requires Contains(whole, part) && forall i | 0 <= i < |words| :: IsAscii(words[i])
    ensures Score(lower.lower(part), words) <= Score(lower.lower(whole), words)
  {
    if words != [] {
      assert IsAscii(words[0]);
      assert Contains(lower.lower(part), words[0]) ==> Contains(lower.lower(whole), words[0]);
      ScoreGrows(lower, part, whole, words[1..]);
    }
  }

  /** Adding text around a complaint never lowers a score; a text that contains an urgent one is urgent. */
  lemma UrgencyIsMonotone(lower: Lower, part: string, whole: string)
    requires Contains(whole, part)
    ensures Urgency(lower.lower(part)) == High ==> Urgency(lower.lower(whole)) == High
  {
    HighWordsAreAscii();
    ScoreGrows(lower, part, whole, HIGH_WORDS);
  }

  lemma HighWordsAreAscii()
    ensures forall i | 0 <= i < |HIGH_WORDS| :: IsAscii(HIGH_WORDS[i])
  {
  }

  lemma {:induction false} CollapsedIsOneLine(text: string)
    ensures forall c | c in Collapse(text) && IsSpace(c) :: c == ' '
    decreases |text|
  {
    if text != "" {
      if IsSpace(text[0]) {
        CollapsedIsOneLine(text[SkipSpace(text, 0)..]);
      } else {
        CollapsedIsOneLine(text[1..]);
      }
    }
  }

  predicate OneLine(s: string) {
    '\n' !in s && '\r' !in s
  }

  lemma StripKeeps(s: string, c: char)
    ensures c in Strip(s) ==> c in s
  {
    var l := LStrip(s);
    assert c in RStrip(l) ==> c in l;
  }

  lemma OneLineJoin(a: string, b: string)
    ensures OneLine(a + b) <==> OneLine(a) && OneLine(b)
  {
  }

  lemma HeadingIsOneLine(category: Category)
    ensures OneLine(Heading(category)) && OneLine(ELLIPSIS) && OneLine(": ") && 14 < |Heading(category)| <= 22
  {
  }

  lemma BodyIsOneLine(text: string)
    ensures OneLine(Strip(Collapse(text)))
  {
    hide Strip, Collapse;
    CollapsedIsOneLine(text);
    StripKeeps(Collapse(text), '\n');
    StripKeeps(Collapse(text), '\r');
  }

  lemma FullIsOneLine(category: Category, text: string, location: string)
    requires OneLine(Strip(location))
    ensures OneLine(FullSummary(category, text, location))
  {
    HeadingIsOneLine(category);
    BodyIsOneLine(text);
    hide Strip, Collapse, Heading, OneLine;
    var head, l, body := Heading(category), Strip(location), Strip(Collapse(text));
    OneLineJoin(head, l);
    OneLineJoin(head + l, ": ");
    OneLineJoin(head + l + ": ", body);
  }

  lemma SummaryBounds(category: Category, text: string, location: string)
    ensures var full := FullSummary(category, text, location);
      && |Shorten(full)| <= SUMMARY_MAX && Shorten(full) != "" && !IsSpace(Shorten(full)[0])
      && (OneLine(Strip(location)) ==> OneLine(Shorten(full)))
  {
    hide Strip, Shorten, FullSummary, IsSpace, OneLine;
    FullEnds(category, text, location);
    ShortenKeeps(FullSummary(category, text, location));
    if OneLine(Strip(location)) { FullIsOneLine(category, text, location); }
  }

  /** Shortened summaries lose at most trailing blanks when stripped, never a line break. */
  lemma ShortenKeeps(full: string)
    requires |full| >= 2 && !IsSpace(full[0])
    requires !IsSpace(full[|full| - 1]) || (full[|full| - 1] == ' ' && !IsSpace(full[|full| - 2]))
    ensures |Shorten(full)| <= SUMMARY_MAX && Shorten(full) != "" && !IsSpace(Shorten(full)[0])
    ensures OneLine(full) ==> OneLine(Shorten(full))
    ensures OneLine(Strip(Shorten(full))) <==> OneLine(Shorten(full))
  {
    if |full| > SUMMARY_MAX {
      ShortenedKeeps(full);
    } else {
      StripTail(full);
    }
  }

  lemma ShortenedKeeps(full: string)
    requires |full| > SUMMARY_MAX && !IsSpace(full[0])
    ensures |Shorten(full)| <= SUMMARY_MAX && Shorten(full) != "" && !IsSpace(Shorten(full)[0])
    ensures OneLine(full) ==> OneLine(Shorten(full))
    ensures Strip(Shorten(full)) == Shorten(full)
  {
    var cut := full[..SUMMARY_MAX - 1];
    var r := RStrip(cut);
    hide RStrip, IsSpace, OneLine;
    assert r <= cut <= full && r <= full;
    EllipsisAfter(r);
    PrefixIsOneLine(r, full);
    OneLineJoin(r, ELLIPSIS);
    HeadingIsOneLine(Other);
    assert r != "" ==> r[0] == full[0];
    StripFixes(r + ELLIPSIS);
  }

  lemma EllipsisAfter(r: string)
    ensures var s := r + ELLIPSIS; !IsSpace(s[|s| - 1]) && s[0] == (if r == "" then ELLIPSIS[0] else r[0])
    ensures !IsSpace(ELLIPSIS[0])
  {
  }

  lemma PrefixIsOneLine(a: string, b: string)
    requires a <= b
    ensures OneLine(b) ==> OneLine(a)
  {
    OneLineJoin(a, b[|a|..]);
    assert b == a + b[|a|..];
  }

  lemma StripTail(s: string)
    requires |s| >= 2 && !IsSpace(s[0])
    requires !IsSpace(s[|s| - 1]) || (s[|s| - 1] == ' ' && !IsSpace(s[|s| - 2]))
    ensures OneLine(Strip(s)) <==> OneLine(s)
  {
    StripFixes(s);
    if IsSpace(s[|s| - 1]) {
      var t := s[..|s| - 1];
      assert LStrip(s) == s;
      assert Strip(s) == t;
      assert s == t + [' '];
    }
  }

  /** The classifier succeeds exactly when its shortened summary holds no line break, and its result
      then keeps the contract with a confidence between 0.3 and 0.9. */
  lemma SucceedsExactlyOnOneLine(lower: Lower, text: string, location: string)
    ensures var category := Classify(lower.lower(text), KEYWORDS);
      Triage(lower, text, location).Some? <==> OneLine(Shorten(FullSummary(category, text, location)))
    ensures Triage(lower, text, location).Some? ==>
      var r := Triage(lower, text, location).value;
      Promised(r) && 0.3 <= r.confidence <= 0.9
      && r.category == Classify(lower.lower(text), KEYWORDS) && r.priority == Urgency(lower.lower(text))
    ensures OneLine(Strip(location)) ==> Triage(lower, text, location).Some?
  {
    hide Classify, Urgency, BestScore, FullSummary, Shorten;
    var lowered := lower.lower(text);
    var category := Classify(lowered, KEYWORDS);
    var s := Shorten(FullSummary(category, text, location));
    SummaryBounds(category, text, location);
    ConstructKeepsPromise(category, Urgency(lowered), s, Confidence(category, BestScore(lowered, KEYWORDS)));
    FullEnds(category, text, location);
    ShortenKeeps(FullSummary(category, text, location));
  }

  /** Over the keyword tables: a result is in the first declared category that no other outscores, or in Other,
      with the lowest confidence, exactly when the complaint holds none of the keywords. */
  lemma ResultIsFirstBest(lower: Lower, text: string, location: string, k: nat)
    requires k < |KEYWORDS| && Triage(lower, text, location).Some?
    ensures var r, lowered := Triage(lower, text, location).value, lower.lower(text);
      && (r.category == KEYWORDS[k].0 <==>
            && Score(lowered, KEYWORDS[k].1) > 0
            && (forall i | 0 <= i < |KEYWORDS| :: Score(lowered, KEYWORDS[i].1) <= Score(lowered, KEYWORDS[k].1))
            && (forall i | 0 <= i < k :: Score(lowered, KEYWORDS[i].1) < Score(lowered, KEYWORDS[k].1)))
      && (r.category == Other <==>
            forall i, j | 0 <= i < |KEYWORDS| && 0 <= j < |KEYWORDS[i].1| :: !Contains(lowered, KEYWORDS[i].1[j]))
      && (r.category == Other ==> r.confidence == 0.3)
  {
    hide Classify, Score, Contains, Urgency, BestScore, FullSummary, Shorten;
    KeywordsDistinct();
    CategoryIsFirstBest(lower.lower(text), KEYWORDS, k);
  }

  /** Some of these words occurs in the text. */
  ghost predicate Mentions(text: string, words: seq<string>) {
    exists i :: 0 <= i < |words| && Contains(text, words[i])
  }

  /** The priority of a result: urgent words outweigh all others, words of small matters come next. */
  lemma ResultUrgency(lower: Lower, text: string, location: string)
    requires Triage(lower, text, location).Some?
    ensures var r, lowered := Triage(lower, text, location).value, lower.lower(text);
      && (r.priority == High <==> Mentions(lowered, HIGH_WORDS))
      && (r.priority == Low <==> !Mentions(lowered, HIGH_WORDS) && Mentions(lowered, LOW_WORDS))
      && (r.priority == Normal <==> !Mentions(lowered, HIGH_WORDS) && !Mentions(lowered, LOW_WORDS))
  {
    hide Contains, Classify, BestScore, FullSummary, Shorten;
  }

  /** The words of a list that occur in the text, by their places. */
  ghost function Found(text: string, words: seq<string>): set<nat> {
    set i: nat | i < |words| && Contains(text, words[i])
  }

  lemma {:induction false} ScoreCounts(text: string, words: seq<string>)
    ensures Score(text, words) == |Found(text, words)|
  {
    hide Contains;
    if words != [] {
      var rest := words[1..];
      ScoreCounts(text, rest);
      var later := set i: nat | i < |words| && i > 0 && Contains(text, words[i]);
      Shifted(Found(text, rest), later);
      assert Found(text, words) == later + (if Contains(text, words[0]) then {0} else {});
    }
  }

  lemma {:induction false} Shifted(a: set<nat>, b: set<nat>)
    requires forall i: nat :: i in a <==> i + 1 in b
    requires 0 !in b
    ensures |a| == |b|
    decreases a
  {
    assert forall i | i in b :: i > 0 && (i - 1) + 1 in b;
    assert forall i | i in b :: i - 1 in a;
    if a == {} {
      assert b == {};
    } else {
      var i :| i in a;
      Shifted(a - {i}, b - {i + 1});
      assert |a - {i}| == |a| - 1 && |b - {i + 1}| == |b| - 1;
    }
  }

  /** The confidence of a result: 0.3 without a keyword, otherwise 0.5 and a tenth for each keyword of its category
      that occurs, up to 0.9. */
  lemma ResultConfidence(lower: Lower, text: string, location: string, k: nat)
    requires k < |KEYWORDS| && Triage(lower, text, location).Some?
    ensures var r, found := Triage(lower, text, location).value, |Found(lower.lower(text), KEYWORDS[k].1)|;
      r.category == KEYWORDS[k].0 ==>
        && (found <= 4 ==> r.confidence == 0.5 + found as real / 10.0)
        && (found >= 4 ==> r.confidence == 0.9)
    ensures Triage(lower, text, location).value.category == Other ==>
      Triage(lower, text, location).value.confidence == 0.3
  {
    hide Contains, Score, Urgency, FullSummary, Shorten, Found;
    var lowered := lower.lower(text);
    KeywordsDistinct();
    ScoreCounts(lowered, KEYWORDS[k].1);
    if Classify(lowered, KEYWORDS) == KEYWORDS[k].0 {
      BestOfCategory(lowered, KEYWORDS, k);
    }
  }

  lemma BestOfCategory(text: string, table: Table, k: nat)
    requires Distinct(table) && k < |table| && Classify(text, table) == table[k].0
    ensures BestScore(text, table) == Score(text, table[k].1)
  {
    hide Score;
    assert forall i | 0 <= i < |table| && i != k :: table[i].0 != table[k].0;
  }

  /** Collapsing white space and stripping is splitting into words and joining them with blanks. */
  lemma {:induction false} CollapsedIsRejoined(text: string)
    ensures Strip(Collapse(text)) == Join(Split(text))
    decreases |text|
  {
    if text == "" {
    } else if IsSpace(text[0]) {
      var rest := text[SkipSpace(text, 0)..];
      SplitPastBlanks(text);
      CollapsedIsRejoined(rest);
      StripBlankFirst(Collapse(rest));
    } else {
      var n := WordPrefix(text);
      var after := text[n..];
      var rest := after[SkipSpace(after, 0)..];
      CollapseWord(text, n);
      SplitPastBlanks(after);
      assert Split(text) == [text[..n]] + Split(rest);
      if rest == "" {
        assert after == "" || Collapse(after) == " ";
        StripWord(text[..n], Collapse(after));
        assert Split(text) == [text[..n]];
      } else {
        CollapsedIsRejoined(rest);
        StripWords(text[..n], Collapse(rest));
        JoinWord(text[..n], Split(rest));
      }
    }
  }

  lemma {:induction false} SplitPastBlanks(s: string)
    ensures Split(s) == Split(s[SkipSpace(s, 0)..])
  {
    SplitFrom(s, 0);
    assert s[0..] == s;
  }

  lemma {:induction false} SplitFrom(s: string, i: nat)
    requires i <= |s|
    ensures Split(s[i..]) == Split(s[SkipSpace(s, i)..])
    decreases |s| - i
  {
    if i < |s| && IsSpace(s[i]) {
      assert s[i..][1..] == s[i + 1..];
      SplitFrom(s, i + 1);
    }
  }

  lemma {:induction false} CollapseWord(text: string, n: nat)
    requires n == WordPrefix(text)
    ensures Collapse(text) == text[..n] + Collapse(text[n..])
    decreases |text|
  {
    if n > 0 {
      CollapseWord(text[1..], n - 1);
      assert text[1..][n - 1..] == text[n..];
      assert text[..n] == [text[0]] + text[1..][..n - 1];
    }
  }

  lemma StripBlankFirst(s: string)
    ensures Strip(" " + s) == Strip(s)
  {
    SkipShift(s, 0);
    assert (" " + s)[SkipSpace(" " + s, 0)..] == s[SkipSpace(s, 0)..];
  }

  lemma {:induction false} SkipShift(s: string, i: nat)
    requires i <= |s|
    ensures SkipSpace(" " + s, i + 1) == SkipSpace(s, i) + 1
    decreases |s| - i
  {
    if i < |s| && IsSpace(s[i]) { SkipShift(s, i + 1); }
  }

  lemma StripWord(w: string, blanks: string)
    requires w != "" && NoSpace(w) && AllSpace(blanks)
    ensures Strip(w + blanks) == w
  {
    RStripPadded(w, blanks);
  }

  lemma StripWords(w: string, s: string)
    requires w != "" && NoSpace(w) && s != "" && !IsSpace(s[0])
    ensures Strip(w + (" " + s)) == w + " " + Strip(s)
  {
    RStripAfter(w + " ", s);
    assert w + (" " + s) == w + " " + s;
  }

  lemma JoinWord(w: string, words: seq<string>)
    requires words != []
    ensures Join([w] + words) == w + " " + Join(words)
  {
    assert ([w] + words)[1..] == words;
  }

  /** The summary of a result: the category, the stripped location and the words of the complaint, as they are if
      that fits, otherwise its first 139 characters without blanks at the end, and an ellipsis. */
  lemma ResultSummary(lower: Lower, text: string, location: string)
    requires Triage(lower, text, location).Some?
    ensures var r := Triage(lower, text, location).value;
      var v := CategoryValue(r.category);
      var full := ['A' + (v[0] - 'a')] + v[1..] + " issue at " + Strip(location) + ": " + Join(Split(text));
      && (|full| <= 140 ==> r.summary == RStrip(full))
      && (|full| > 140 ==> r.summary == RStrip(full[..139]) + ['\U{2026}'])
  {
    hide Contains, Classify, Urgency, BestScore, Collapse, Split, Join, CategoryValue, Confidence;
    var category := Classify(lower.lower(text), KEYWORDS);
    CollapsedIsRejoined(text);
    FullEnds(category, text, location);
    var full := FullSummary(category, text, location);
    hide FullSummary, Strip;
    StripsToSummary(full);
  }

  lemma StripsToSummary(full: string)
    requires |full| >= 2 && !IsSpace(full[0])
    ensures Strip(Shorten(full)) == if |full| <= SUMMARY_MAX then RStrip(full) else Shorten(full)
  {
    if |full| > SUMMARY_MAX {
      var r := RStrip(full[..SUMMARY_MAX - 1]);
      assert r != "" ==> r[0] == full[0];
      StripFixes(r + ELLIPSIS);
    }
  }

  lemma TriageKeepsPromise(lower: Lower, text: string, location: string)
    ensures var r := Triage(lower, text, location); r.Some? ==> Promised(r.value)
  {
    hide Classify, Urgency, BestScore, FullSummary, Shorten;
    var lowered := lower.lower(text);
    var category := Classify(lowered, KEYWORDS);
    ConstructKeepsPromise(category, Urgency(lowered), Shorten(FullSummary(category, text, location)),
                          Confidence(category, BestScore(lowered, KEYWORDS)));
  }

  lemma FullEnds(category: Category, text: string, location: string)
    ensures var full := FullSummary(category, text, location);
      && |full| >= 2 && !IsSpace(full[0])
      && (!IsSpace(full[|full| - 1]) || (full[|full| - 1] == ' ' && !IsSpace(full[|full| - 2])))
  {
    hide Collapse;
    var full, body := FullSummary(category, text, location), Strip(Collapse(text));
    assert full[0] == Capitalized(category)[0];
    if body == "" {
      assert full[|full| - 2] == ':' && full[|full| - 1] == ' ';
    } else {
      assert full[|full| - 1] == body[|body| - 1];
    }
  }

  /** As much of the stripped location as the shortened summary shows. */
  function Visible(category: Category, location: string): string {
    var l, room := Strip(location), SUMMARY_MAX - 1 - |Heading(category)|;
    if |l| <= room then l else RStrip(l[..room])
  }

  /** The classifier is documented never to fail. It fails exactly when the part of the location that its
      summary shows holds a line break, whatever the complaint says. */
  lemma FailsExactlyOnVisibleLineBreak(lower: Lower, text: string, location: string)
    ensures Triage(lower, text, location).None?
      <==> !OneLine(Visible(Classify(lower.lower(text), KEYWORDS), location))
  {
    hide Classify, Triage, Collapse, Strip, Shorten, FullSummary, Visible;
    SucceedsExactlyOnOneLine(lower, text, location);
    ShortenedShowsVisible(Classify(lower.lower(text), KEYWORDS), text, location);
  }

  lemma ShortenedShowsVisible(category: Category, text: string, location: string)
    ensures OneLine(Shorten(FullSummary(category, text, location))) <==> OneLine(Visible(category, location))
  {
    hide Collapse, Strip, Shorten;
    var head, l := Heading(category), Strip(location);
    var room := SUMMARY_MAX - 1 - |head|;
    if |l| <= room {
      SummaryBounds(category, text, location);
      WholeLocationShown(category, text, location);
    } else {
      CutLocationShown(category, text, location);
    }
  }

  lemma WholeLocationShown(category: Category, text: string, location: string)
    requires |Heading(category)| + |Strip(location)| < SUMMARY_MAX
    ensures !OneLine(Strip(location)) ==> !OneLine(Shorten(FullSummary(category, text, location)))
  {
    hide Collapse, Strip, Shorten, RStrip, OneLine, Heading;
    var head, l := Heading(category), Strip(location);
    if !OneLine(l) {
      StripEnds(location);
      assert l != "" by { NothingIsOneLine(); }
      ShortenSpares(head, l, ": " + Strip(Collapse(text)));
      assert head + l + (": " + Strip(Collapse(text))) == FullSummary(category, text, location);
    }
  }

  lemma NothingIsOneLine()
    ensures OneLine("")
  {
  }

  lemma ShortenSpares(head: string, l: string, tail: string)
    requires |head| + |l| < SUMMARY_MAX && l != "" && !IsSpace(l[|l| - 1])
    ensures OneLine(Shorten(head + l + tail)) ==> OneLine(l)
  {
    hide Shorten, RStrip, IsSpace;
    var full, n := head + l + tail, |head| + |l|;
    assert full[n - 1] == l[|l| - 1];
    KeptByShorten(full, n);
    var s := Shorten(full);
    assert full[..n] == head + l;
    assert s == head + l + s[n..];
    OneLineJoin(head + l, s[n..]);
    OneLineJoin(head, l);
  }

  lemma CutLocationShown(category: Category, text: string, location: string)
    requires |Heading(category)| + |Strip(location)| >= SUMMARY_MAX
    ensures OneLine(Shorten(FullSummary(category, text, location))) <==> OneLine(Visible(category, location))
  {
    hide Collapse, Strip, RStrip, OneLine, Heading, Shorten;
    var head, l := Heading(category), Strip(location);
    HeadingIsOneLine(category);
    StripEnds(location);
    ShortenCuts(head, l, ": ", Strip(Collapse(text)));
    var cut := RStrip(l[..SUMMARY_MAX - 1 - |head|]);
    OneLineJoin(head, cut);
    OneLineJoin(head + cut, ELLIPSIS);
  }

  lemma ShortenCuts(head: string, l: string, sep: string, tail: string)
    requires |head| < SUMMARY_MAX - 1 && |head| + |l| >= SUMMARY_MAX && !IsSpace(l[0]) && sep != ""
    ensures Shorten(head + l + sep + tail) == head + RStrip(l[..SUMMARY_MAX - 1 - |head|]) + ELLIPSIS
  {
    hide RStrip, IsSpace;
    var cut := l[..SUMMARY_MAX - 1 - |head|];
    CutWithin(head, l, sep + tail, SUMMARY_MAX - 1);
    assert head + l + sep + tail == head + l + (sep + tail);
    RStripAfter(head, cut);
  }

  lemma CutWithin(head: string, l: string, tail: string, n: nat)
    requires |head| < n < |head| + |l|
    ensures (head + l + tail)[..n] == head + l[..n - |head|]
    ensures l[..n - |head|][0] == l[0]
  {
  }


  lemma {:induction false} RStripAfter(a: string, b: string)
    requires b != "" && !IsSpace(b[0])
    ensures RStrip(a + b) == a + RStrip(b) && RStrip(b) != ""
  {
    if IsSpace(b[|b| - 1]) {
      assert (a + b)[..|a + b| - 1] == a + b[..|b| - 1];
      RStripAfter(a, b[..|b| - 1]);
    }
  }

  /** So for a location of up to 117 characters, whatever its category, any line break inside is fatal. */
  lemma FailsOnLineBreakInLocation(lower: Lower, text: string, location: string)
    requires |Strip(location)| <= 117
    ensures Triage(lower, text, location).None? <==> !OneLine(Strip(location))
  {
    hide Classify, Triage, Strip, RStrip;
    FailsExactlyOnVisibleLineBreak(lower, text, location);
  }

  lemma StripEnds(s: string)
    ensures var t := Strip(s); t != "" ==> !IsSpace(t[0]) && !IsSpace(t[|t| - 1])
  {
  }

  lemma KeptByShorten(full: string, n: nat)
    requires 0 < n <= |full| && n < SUMMARY_MAX && !IsSpace(full[n - 1])
    ensures |Shorten(full)| >= n && Shorten(full)[..n] == full[..n]
  {
    if |full| > SUMMARY_MAX {
      var cut := full[..SUMMARY_MAX - 1];
      var r := RStrip(cut);
      assert cut == full[..n - 1] + full[n - 1..SUMMARY_MAX - 1];
      RStripAfter(full[..n - 1], full[n - 1..SUMMARY_MAX - 1]);
      assert Shorten(full)[..n] == r[..n] == cut[..n] == full[..n];
    }
  }

  lemma LineBreakExample(lower: Lower, text: string)
    ensures Triage(lower, text, "G-11\nStreet 12").None?
  {
    StripFixes("G-11\nStreet 12");
    assert "G-11\nStreet 12"[4] == '\n';
    FailsOnLineBreakInLocation(lower, text, "G-11\nStreet 12");
  }
}
