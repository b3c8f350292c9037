/**
  The email pattern of the kiosk, `^[\w\.-]+@tip\.edu\.ph$`, as Python's
  `re.match` applies it to the whole text of the email field.

  `\w` stands for Python's Unicode word characters; their table is not
  written down here, so every member takes it as a parameter `isWord`.
  `$` without MULTILINE matches at the end of the text and also just
  before one final newline, so `local@tip.edu.ph\n` matches as well.

  The matching is stated for any literal `lit` after the character class
  and used with `lit == Domain`.
*/
module EmailPattern {

  /** The literal part after the local part: `@tip\.edu\.ph`. */
  const Domain: string := "@tip.edu.ph"

  /** A member of the character class `[\w\.-]`. */
  predicate LocalChar(isWord: char -> bool, c: char) {
    isWord(c) || c == '.' || c == '-'
  }

  predicate AllLocal(isWord: char -> bool, t: string) {
    forall i :: 0 <= i < |t| ==> LocalChar(isWord, t[i])
  }

  /** What `lit$` accepts once the local part has been consumed. */
  predicate TailMatches(lit: string, t: string) {
    t == lit || t == lit + "\n"
  }

  /**
    The meaning of `^[\w\.-]+lit$`: some non-empty prefix is made of class
    characters and the rest is `lit`, optionally followed by one newline.
  */
  ghost predicate Matches(isWord: char -> bool, lit: string, s: string) {
    exists k :: 1 <= k <= |s| && AllLocal(isWord, s[..k]) && TailMatches(lit, s[k..])
  }

  /** The meaning of the kiosk's email pattern. */
  ghost predicate FullMatch(isWord: char -> bool, s: string) {
    Matches(isWord, Domain, s)
  }

  /** How far the greedy `[\w\.-]+` runs from the start of `s`. */
  function GreedyRun(isWord: char -> bool, s: string): (n: nat)
    ensures n <= |s|
    ensures AllLocal(isWord, s[..n])
    ensures n < |s| ==> !LocalChar(isWord, s[n])
  {
    if |s| == 0 || !LocalChar(isWord, s[0]) then 0
    else
      var m := GreedyRun(isWord, s[1..]);
      assert s[..1 + m] == [s[0]] + s[1..][..m];
      1 + m
  }

  /**
    The engine giving characters back one at a time: the tail is tried after
    the first `k` characters, then after `k - 1`, down to one.
  */
  function Backtrack(lit: string, s: string, k: nat): (ok: bool)
    requires k <= |s|
    ensures ok <==> exists j :: 1 <= j <= k && TailMatches(lit, s[j..])
  {
    if k == 0 then false
    else TailMatches(lit, s[k..]) || Backtrack(lit, s, k - 1)
  }

  /** `re.match(r'^[\w\.-]+@tip\.edu\.ph$', s)` is not None. */
  function ReMatch(isWord: char -> bool, s: string): bool {
    Backtrack(Domain, s, GreedyRun(isWord, s))
  }

  /** A prefix of a run of class characters is one too. */
  lemma AllLocalPrefix(isWord: char -> bool, s: string, j: nat, n: nat)
    requires j <= n <= |s| && AllLocal(isWord, s[..n])
    ensures AllLocal(isWord, s[..j])
  {
    assert forall i :: 0 <= i < j ==> s[..j][i] == s[..n][i];
  }

  /** Greedy run and backtracking decide exactly the meaning of the pattern. */
  lemma BacktrackIsMatches(isWord: char -> bool, lit: string, s: string)
    ensures Backtrack(lit, s, GreedyRun(isWord, s)) <==> Matches(isWord, lit, s)
  {
    var n := GreedyRun(isWord, s);
    if Backtrack(lit, s, n) {
      var j :| 1 <= j <= n && TailMatches(lit, s[j..]);
      AllLocalPrefix(isWord, s, j, n);
    }
    if Matches(isWord, lit, s) {
      var k :| 1 <= k <= |s| && AllLocal(isWord, s[..k]) && TailMatches(lit, s[k..]);
    }
  }

  /** The engine model of `re.match` decides exactly the meaning of the email pattern. */
  lemma ReMatchIsFullMatch(isWord: char -> bool, s: string)
    ensures ReMatch(isWord, s) <==> FullMatch(isWord, s)
  {
    BacktrackIsMatches(isWord, Domain, s);
  }

  /**
    `^[\w\.-]+lit$` in closed form: the text ends in `lit`, or in `lit` and
    one newline, and what comes before is a non-empty run of class characters.
  */
  lemma MatchesShape(isWord: char -> bool, lit: string, s: string)
    ensures Matches(isWord, lit, s) <==>
      (|s| > |lit| && s[|s| - |lit|..] == lit && AllLocal(isWord, s[..|s| - |lit|])) ||
      (|s| > |lit| + 1 && s[|s| - |lit| - 1..] == lit + "\n"
        && AllLocal(isWord, s[..|s| - |lit| - 1]))
  {
  }

  /** The email pattern in closed form. */
  lemma FullMatchShape(isWord: char -> bool, s: string)
    ensures FullMatch(isWord, s) <==>
      (|s| > |Domain| && s[|s| - |Domain|..] == Domain
        && AllLocal(isWord, s[..|s| - |Domain|])) ||
      (|s| > |Domain| + 1 && s[|s| - |Domain| - 1..] == Domain + "\n"
        && AllLocal(isWord, s[..|s| - |Domain| - 1]))
  {
  }

  /** Every non-empty run of class characters before the domain is accepted, with or without one final newline. */
  lemma AcceptsLocalAtDomain(isWord: char -> bool, local: string)
    requires |local| > 0 && AllLocal(isWord, local)
    ensures FullMatch(isWord, local + Domain)
    ensures FullMatch(isWord, local + Domain + "\n")
  {
    var s, t := local + Domain, local + Domain + "\n";
    assert s[..|local|] == local && s[|local|..] == Domain;
    assert t[..|local|] == local && t[|local|..] == Domain + "\n";
  }

  /** Text that ends neither in the domain nor in the domain and one newline is refused. */
  lemma RejectsOtherSuffix(isWord: char -> bool, s: string)
    requires !(|s| >= |Domain| && s[|s| - |Domain|..] == Domain)
    requires !(|s| >= |Domain| + 1 && s[|s| - |Domain| - 1..] == Domain + "\n")
    ensures !FullMatch(isWord, s)
  {
  }

  /** An empty local part is refused: the `+` needs at least one character. */
  lemma RejectsBareDomain(isWord: char -> bool)
    ensures !FullMatch(isWord, Domain)
    ensures !FullMatch(isWord, Domain + "\n")
  {
    FullMatchShape(isWord, Domain);
    FullMatchShape(isWord, Domain + "\n");
    var t := Domain + "\n";
    assert t[|t| - |Domain|..] != Domain by {
      assert t[|t| - 1] == '\n';
    }
  }

  /**
    A character outside the class anywhere in the local part refuses the
    text: in front of the domain, and of the final newline when there is one.
    Python's word characters do not include `@`, so a second `@` in the local
    part is refused this way.
  */
  lemma RejectsBadLocalChar(isWord: char -> bool, s: string, i: nat)
    requires i < |s| && !LocalChar(isWord, s[i])
    requires i < |s| - |Domain| - (if s[|s| - 1] == '\n' then 1 else 0)
    ensures !FullMatch(isWord, s)
  {
  }
}
