/** Pack-type detection from a folder name: the two case-insensitive patterns
    `[\s_-]?(BP|BH|Behavior\s*Pack|B)$` and `[\s_-]?(RP|RS|Resource\s*Pack|R)$`,
    tried in that order with `re.search`.

    The patterns are kept as data (`SuffixRule`). `Search` states what
    `re.search` means for such a pattern; `MatchesRule` is the suffix test
    that decides it, and `SearchIffSuffix` proves the two agree. Case folding
    is ASCII only and `\s` is the ASCII whitespace of `str.isspace`. */
module Classifier {
  import opened PackFs

  datatype PackType = Behavior | Resource

  /** The pattern `[\s_-]?(Pair1|Pair2|Phrase\s*Pack|Single)$`, words kept in
      lower case. */
  datatype SuffixRule = SuffixRule(pair1: string, pair2: string, phrase: string, single: string)

  const BehaviorRule := SuffixRule("bp", "bh", "behavior", "b")
  const ResourceRule := SuffixRule("rp", "rs", "resource", "r")

  /** `\s` restricted to ASCII: tab, line feed, vertical tab, form feed,
      carriage return, the four information separators and space. */
  predicate IsSpace(c: char)
  {
    var n := c as int;
    n == 32 || 9 <= n <= 13 || 28 <= n <= 31
  }

  /** The optional separator class `[\s_-]`. */
  predicate IsSeparator(c: char)
  {
    IsSpace(c) || c == '_' || c == '-'
  }

  function Lower(c: char): char
  {
    if 'A' <= c <= 'Z' then (c as int + 32) as char else c
  }

  lemma LowerLetterIsNotSpace(c: char)
    requires 'a' <= Lower(c) <= 'z'
    ensures !IsSpace(c)
  {
  }

  /** `t` equals the lower-case word `w` up to ASCII case. */
  predicate SameIgnoringCase(t: string, w: string)
  {
    |t| == |w| && forall i :: 0 <= i < |t| ==> Lower(t[i]) == w[i]
  }

  predicate EndsWithWord(s: string, w: string)
  {
    |w| <= |s| && SameIgnoringCase(s[|s| - |w|..], w)
  }

  /** `s` without its trailing whitespace. */
  function TrimSpace(s: string): string
  {
    if |s| > 0 && IsSpace(s[|s| - 1]) then TrimSpace(s[..|s| - 1]) else s
  }

  /** `s` ends with `phrase`, any run of whitespace, then `pack`. */
  predicate EndsWithPhrase(s: string, phrase: string)
  {
    4 <= |s| && SameIgnoringCase(s[|s| - 4..], "pack") &&
    EndsWithWord(TrimSpace(s[..|s| - 4]), phrase)
  }

  /** The suffix test that decides a rule. */
  predicate MatchesRule(rule: SuffixRule, s: string)
  {
    EndsWithWord(s, rule.pair1) || EndsWithWord(s, rule.pair2) ||
    EndsWithPhrase(s, rule.phrase) || EndsWithWord(s, rule.single)
  }

  // ---------------------------------------------------------------------
  // What re.search means for such a pattern

  /** All of `t` matches the group `(Pair1|Pair2|Phrase\s*Pack|Single)`. */
  ghost predicate GroupMatches(rule: SuffixRule, t: string)
  {
    var n := |rule.phrase|;
    SameIgnoringCase(t, rule.pair1) || SameIgnoringCase(t, rule.pair2) ||
    SameIgnoringCase(t, rule.single) ||
    (n + 4 <= |t| && SameIgnoringCase(t[..n], rule.phrase) &&
     SameIgnoringCase(t[|t| - 4..], "pack") &&
     forall i :: n <= i < |t| - 4 ==> IsSpace(t[i]))
  }

  /** All of `t`, up to the `$` anchor, matches the pattern. */
  ghost predicate PatternMatches(rule: SuffixRule, t: string)
  {
    GroupMatches(rule, t) || (0 < |t| && IsSeparator(t[0]) && GroupMatches(rule, t[1..]))
  }

  /** `re.search` finds a match: at some start position the rest of the name
      matches the pattern to its end. */
  ghost predicate Search(rule: SuffixRule, s: string)
  {
    exists k :: 0 <= k <= |s| && PatternMatches(rule, s[k..])
  }

  /** Words are lower-case, and the phrase ends in a letter. */
  predicate WellFormed(rule: SuffixRule)
  {
    |rule.phrase| > 0 && 'a' <= rule.phrase[|rule.phrase| - 1] <= 'z'
  }

  lemma {:induction false} TrimSpaceSplits(u: string)
    ensures |TrimSpace(u)| <= |u| && TrimSpace(u) == u[..|TrimSpace(u)|]
    ensures forall i :: |TrimSpace(u)| <= i < |u| ==> IsSpace(u[i])
    ensures TrimSpace(u) == [] || !IsSpace(TrimSpace(u)[|TrimSpace(u)| - 1])
    decreases |u|
  {
    if |u| > 0 && IsSpace(u[|u| - 1]) {
      TrimSpaceSplits(u[..|u| - 1]);
    }
  }

  lemma {:induction false} TrimSpaceOf(v: string, w: string)
    requires v == [] || !IsSpace(v[|v| - 1])
    requires forall i :: 0 <= i < |w| ==> IsSpace(w[i])
    ensures TrimSpace(v + w) == v
    decreases |w|
  {
    if w == [] {
      assert v + w == v;
    } else {
      assert (v + w)[..|v + w| - 1] == v + w[..|w| - 1];
      TrimSpaceOf(v, w[..|w| - 1]);
    }
  }

  /** A word that ends the name gives a match starting where the word does. */
  lemma WordGivesSearch(rule: SuffixRule, s: string, w: string)
    requires w == rule.pair1 || w == rule.pair2 || w == rule.single
    requires EndsWithWord(s, w)
    ensures Search(rule, s)
  {
    var k := |s| - |w|;
    assert PatternMatches(rule, s[k..]);
  }

  /** A name ending in the phrase, whitespace and `pack` gives a match
      starting where the phrase does. */
  lemma PhraseGivesSearch(rule: SuffixRule, s: string)
    requires EndsWithPhrase(s, rule.phrase)
    ensures Search(rule, s)
  {
    var u := s[..|s| - 4];
    var v := TrimSpace(u);
    TrimSpaceSplits(u);
    var n := |rule.phrase|;
    var k := |v| - n;
    var t := s[k..];
    assert SameIgnoringCase(t[..n], rule.phrase) by {
      assert t[..n] == v[k..];
    }
    assert SameIgnoringCase(t[|t| - 4..], "pack") by {
      assert t[|t| - 4..] == s[|s| - 4..];
    }
    assert forall i :: n <= i < |t| - 4 ==> IsSpace(t[i]) by {
      forall i | n <= i < |t| - 4
        ensures IsSpace(t[i])
      {
        assert t[i] == u[k + i];
      }
    }
    PhraseGroup(rule, t);
    assert PatternMatches(rule, s[k..]);
  }

  /** The phrase alternative of the group. */
  lemma PhraseGroup(rule: SuffixRule, t: string)
    requires |rule.phrase| + 4 <= |t|
    requires SameIgnoringCase(t[..|rule.phrase|], rule.phrase)
    requires SameIgnoringCase(t[|t| - 4..], "pack")
    requires forall i :: |rule.phrase| <= i < |t| - 4 ==> IsSpace(t[i])
    ensures GroupMatches(rule, t)
  {
  }

  /** A match of the group over a tail of the name makes the suffix test
      succeed. */
  lemma GroupGivesSuffix(rule: SuffixRule, s: string, j: nat)
    requires WellFormed(rule)
    requires j <= |s| && GroupMatches(rule, s[j..])
    ensures MatchesRule(rule, s)
  {
    var t := s[j..];
    if SameIgnoringCase(t, rule.pair1) {
      assert s[|s| - |rule.pair1|..] == t;
    } else if SameIgnoringCase(t, rule.pair2) {
      assert s[|s| - |rule.pair2|..] == t;
    } else if SameIgnoringCase(t, rule.single) {
      assert s[|s| - |rule.single|..] == t;
    } else {
      PhraseGroupSuffix(rule, s, j);
    }
  }

  /** The phrase alternative over a tail of the name: the name ends in the
      phrase, whitespace and `pack`. */
  lemma PhraseGroupSuffix(rule: SuffixRule, s: string, j: nat)
    requires WellFormed(rule)
    requires j + |rule.phrase| + 4 <= |s|
    requires SameIgnoringCase(s[j..][..|rule.phrase|], rule.phrase)
    requires SameIgnoringCase(s[|s| - 4..], "pack")
    requires forall i :: |rule.phrase| <= i < |s| - j - 4 ==> IsSpace(s[j..][i])
    ensures EndsWithPhrase(s, rule.phrase)
  {
    var t := s[j..];
    var n := |rule.phrase|;
    var u := s[..|s| - 4];
    var v := s[..j + n];
    var w := s[j + n..|s| - 4];
    assert u == v + w;
    assert Lower(v[|v| - 1]) == rule.phrase[n - 1] by {
      assert v[|v| - 1] == t[..n][n - 1];
    }
    LowerLetterIsNotSpace(v[|v| - 1]);
    assert forall i :: 0 <= i < |w| ==> IsSpace(w[i]) by {
      forall i | 0 <= i < |w|
        ensures IsSpace(w[i])
      {
        assert w[i] == t[n + i];
      }
    }
    TrimSpaceOf(v, w);
    assert v[|v| - n..] == t[..n];
  }

  /** The suffix test decides `re.search` for every well-formed rule. */
  lemma SearchIffSuffix(rule: SuffixRule, s: string)
    requires WellFormed(rule)
    ensures Search(rule, s) <==> MatchesRule(rule, s)
  {
    if Search(rule, s) {
      var k :| 0 <= k <= |s| && PatternMatches(rule, s[k..]);
      if GroupMatches(rule, s[k..]) {
        GroupGivesSuffix(rule, s, k);
      } else {
        assert s[k..][1..] == s[k + 1..];
        GroupGivesSuffix(rule, s, k + 1);
      }
    }
    if MatchesRule(rule, s) {
      if EndsWithWord(s, rule.pair1) {
        WordGivesSearch(rule, s, rule.pair1);
      } else if EndsWithWord(s, rule.pair2) {
        WordGivesSearch(rule, s, rule.pair2);
      } else if EndsWithWord(s, rule.single) {
        WordGivesSearch(rule, s, rule.single);
      } else {
        PhraseGivesSearch(rule, s);
      }
    }
  }

  /** `detect_pack_type`: the behaviour rule first, then the resource rule. */
  function DetectPackType(folderName: string): Option<PackType>
  {
    if MatchesRule(BehaviorRule, folderName) then Some(Behavior)
    else if MatchesRule(ResourceRule, folderName) then Some(Resource)
    else None
  }

  /** Detection answers behaviour exactly when `re.search` finds the
      behaviour pattern; otherwise resource exactly when it finds the
      resource pattern; otherwise no type. */
  lemma DetectAgreesWithRegex(folderName: string)
    ensures DetectPackType(folderName) == Some(Behavior) <==> Search(BehaviorRule, folderName)
    ensures DetectPackType(folderName) == Some(Resource) <==>
              !Search(BehaviorRule, folderName) && Search(ResourceRule, folderName)
    ensures DetectPackType(folderName) == None <==>
              !Search(BehaviorRule, folderName) && !Search(ResourceRule, folderName)
  {
    SearchIffSuffix(BehaviorRule, folderName);
    SearchIffSuffix(ResourceRule, folderName);
  }

  // ---------------------------------------------------------------------
  // The two patterns never both match

  lemma LastLetters(s: string, w: string)
    requires EndsWithWord(s, w) && |w| >= 1
    ensures Lower(s[|s| - 1]) == w[|w| - 1]
    ensures |w| >= 2 ==> Lower(s[|s| - 2]) == w[|w| - 2]
  {
    var t := s[|s| - |w|..];
    assert t[|w| - 1] == s[|s| - 1];
    if |w| >= 2 {
      assert t[|w| - 2] == s[|s| - 2];
    }
  }

  /** Letters a name can end with under the behaviour rule: b, p, h or k. */
  lemma BehaviorEndings(s: string)
    requires MatchesRule(BehaviorRule, s)
    ensures var c := Lower(s[|s| - 1]);
      (c == 'p' ==> Lower(s[|s| - 2]) == 'b') &&
      (c == 'k' ==> EndsWithPhrase(s, "behavior")) &&
      (c == 'b' || c == 'p' || c == 'h' || c == 'k')
  {
    if EndsWithWord(s, "bp") { LastLetters(s, "bp"); }
    else if EndsWithWord(s, "bh") { LastLetters(s, "bh"); }
    else if EndsWithWord(s, "b") { LastLetters(s, "b"); }
    else { LastLetters(s, "pack"); }
  }

  /** Letters a name can end with under the resource rule: r, p, s or k. */
  lemma ResourceEndings(s: string)
    requires MatchesRule(ResourceRule, s)
    ensures var c := Lower(s[|s| - 1]);
      (c == 'p' ==> Lower(s[|s| - 2]) == 'r') &&
      (c == 'k' ==> EndsWithPhrase(s, "resource")) &&
      (c == 'r' || c == 'p' || c == 's' || c == 'k')
  {
    if EndsWithWord(s, "rp") { LastLetters(s, "rp"); }
    else if EndsWithWord(s, "rs") { LastLetters(s, "rs"); }
    else if EndsWithWord(s, "r") { LastLetters(s, "r"); }
    else { LastLetters(s, "pack"); }
  }

  /** The last letters of a name ending in the word `w`. */
  lemma WordLastLetters(s: string, w: string)
    requires |w| >= 1
    ensures EndsWithWord(s, w) ==>
      Lower(s[|s| - 1]) == w[|w| - 1] && (|w| >= 2 ==> Lower(s[|s| - 2]) == w[|w| - 2])
  {
    if EndsWithWord(s, w) {
      LastLetters(s, w);
    }
  }

  /** The last letter before the whitespace and `pack` of a name ending in
      the phrase. */
  lemma PhraseLastLetter(s: string, phrase: string)
    requires |phrase| >= 1
    ensures EndsWithPhrase(s, phrase) ==>
      var v := TrimSpace(s[..|s| - 4]);
      |v| >= 1 && Lower(v[|v| - 1]) == phrase[|phrase| - 1]
  {
    if EndsWithPhrase(s, phrase) {
      LastLetters(TrimSpace(s[..|s| - 4]), phrase);
    }
  }

  /** A name the behaviour rule accepts is not one the resource rule
      accepts. */
  lemma BehaviorNotResource(s: string)
    requires MatchesRule(BehaviorRule, s)
    ensures !MatchesRule(ResourceRule, s)
  {
    BehaviorEndings(s);
    WordLastLetters(s, "rp");
    WordLastLetters(s, "rs");
    WordLastLetters(s, "r");
    WordLastLetters(s, "pack");
    PhraseLastLetter(s, "behavior");
    PhraseLastLetter(s, "resource");
  }

  /** No folder name matches both patterns. */
  lemma NoNameMatchesBoth(s: string)
    ensures !(Search(BehaviorRule, s) && Search(ResourceRule, s))
  {
    SearchIffSuffix(BehaviorRule, s);
    SearchIffSuffix(ResourceRule, s);
    if MatchesRule(BehaviorRule, s) {
      BehaviorNotResource(s);
    }
  }

  /** Trying the resource pattern first would classify every name the same
      way: the behaviour-first order is never a tie-break. */
  lemma CheckOrderIrrelevant(s: string)
    ensures DetectPackType(s) ==
      (if Search(ResourceRule, s) then Some(Resource)
       else if Search(BehaviorRule, s) then Some(Behavior)
       else None)
  {
    NoNameMatchesBoth(s);
    DetectAgreesWithRegex(s);
  }
}
