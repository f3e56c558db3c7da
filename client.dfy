/** The client's decision for one line typed by the user: the line is lower-cased,
    `break` ends the program, a line the domain pattern accepts is sent to the
    local resolver, and anything else is answered with a prompt to try again. */
module Client {
  import opened Strings
  import opened Helpers

  predicate IsLowerLetter(c: char)
  {
    'a' <= c <= 'z'
  }

  /** ASCII lower-casing of one character. */
  function LowerChar(c: char): (lowered: char)
  {
    if 'A' <= c <= 'Z' then (c as int + 32) as char else c
  }

  /** `str.lower()` on ASCII letters. */
  function Lower(s: string): (lowered: string)
  {
    seq(|s|, i requires 0 <= i < |s| => LowerChar(s[i]))
  }

  /** Lower-casing twice is lower-casing once. */
  lemma LowerIdempotent(s: string)
    ensures Lower(Lower(s)) == Lower(s)
  {
  }

  /** Position `i` holds a dot with a lower-case letter right before and right after it. */
  predicate DotBetweenLetters(s: string, i: int)
    requires 0 < i < |s| - 1
  {
    s[i] == '.' && IsLowerLetter(s[i - 1]) && IsLowerLetter(s[i + 1])
  }

  /** `isValid`: scans for a lower-case letter, a dot and a lower-case letter in
      a row; accepted exactly when some dot has a lower-case letter on each side. */
  function IsValid(userInput: string): (found: bool)
    ensures found <==> exists i :: 0 < i < |userInput| - 1 && DotBetweenLetters(userInput, i)
    decreases |userInput|
  {
    if |userInput| < 3 then false
    else if IsLowerLetter(userInput[0]) && userInput[1] == '.' && IsLowerLetter(userInput[2]) then
      assert DotBetweenLetters(userInput, 1);
      true
    else
      var rest := userInput[1..];
      assert forall i :: 0 < i < |rest| - 1 ==> (DotBetweenLetters(rest, i) <==> DotBetweenLetters(userInput, i + 1));
      assert forall i :: 1 < i < |userInput| - 1 ==> (DotBetweenLetters(userInput, i) <==> DotBetweenLetters(rest, i - 1));
      IsValid(rest)
  }

  /** `[a-z]+` matches `s[from..to]`. */
  ghost predicate Letters(s: string, from: int, to: int)
  {
    0 <= from < to <= |s| && forall k :: from <= k < to ==> IsLowerLetter(s[k])
  }

  /** The regular expression `[a-z]+\.[a-z]+` matches `s[from..to]` with the dot at `dot`. */
  ghost predicate PatternAt(s: string, from: int, dot: int, to: int)
  {
    Letters(s, from, dot) && dot < |s| && s[dot] == '.' && Letters(s, dot + 1, to)
  }

  /** An unanchored search for `[a-z]+\.[a-z]+` succeeds somewhere in `s`, which is
      exactly when `re.findall` returns a nonempty list (the outer `(...)+` of the
      source's pattern only lengthens a match). */
  ghost predicate PatternFound(s: string)
  {
    exists from, dot, to :: PatternAt(s, from, dot, to)
  }

  /** The scan decides the regular-expression search, both ways. */
  lemma IsValidIsPatternSearch(s: string)
    ensures IsValid(s) <==> PatternFound(s)
  {
    if IsValid(s) {
      var i :| 0 < i < |s| - 1 && DotBetweenLetters(s, i);
      assert PatternAt(s, i - 1, i, i + 2);
    }
    if PatternFound(s) {
      var from, dot, to :| PatternAt(s, from, dot, to);
      assert IsLowerLetter(s[dot - 1]) && IsLowerLetter(s[dot + 1]);
      assert DotBetweenLetters(s, dot);
    }
  }

  /** The search is unanchored: text around an accepted line keeps it accepted. */
  lemma AcceptedInAnyContext(before: string, s: string, after: string)
    requires IsValid(s)
    ensures IsValid(before + s + after)
  {
    var i :| 0 < i < |s| - 1 && DotBetweenLetters(s, i);
    var t := before + s + after;
    var j := |before| + i;
    assert t[j - 1] == s[i - 1] && t[j] == s[i] && t[j + 1] == s[i + 1];
    assert DotBetweenLetters(t, j);
  }

  /** A line without a dot is refused. */
  lemma NoDotRejected(s: string)
    requires '.' !in s
    ensures !IsValid(s)
  {
    assert forall i :: 0 < i < |s| - 1 ==> s[i] != '.';
  }

  /** A dotted address is refused: no letter stands before any of its dots. */
  lemma AddressRejected()
    ensures !IsValid("1.2.3.4")
  {
    var ip := "1.2.3.4";
    assert forall i :: 0 < i < |ip| - 1 ==> !IsLowerLetter(ip[i - 1]) || ip[i] != '.';
  }

  /** An empty label between two dots is refused: each dot has a dot beside it. */
  lemma EmptyLabelRejected()
    ensures !IsValid("a..b")
  {
    var gap := "a..b";
    assert forall i :: 0 < i < |gap| - 1 ==> gap[i] != '.' || gap[i - 1] == '.' || gap[i + 1] == '.';
  }

  /** The names the prompt gives as examples are accepted. */
  lemma ExamplesAccepted()
    ensures IsValid("subdomain.domain.com") && IsValid("domain.com") && IsValid("gaia.cs.umass.edu")
  {
    assert DotBetweenLetters("subdomain.domain.com", 9);
    assert DotBetweenLetters("domain.com", 6);
    assert DotBetweenLetters("gaia.cs.umass.edu", 4);
  }

  /** What the client does with one line. */
  datatype Action = Exit | Send(domain: string) | Reprompt

  /** The loop body: lower-case the line, stop on `break`, send what the
      pattern accepts, re-prompt otherwise. */
  function Classify(line: string): (action: Action)
    ensures action == Exit <==> Lower(line) == "break"
    ensures action.Send? <==> Lower(line) != "break" && IsValid(Lower(line))
    ensures action.Send? ==> action.domain == Lower(line)
  {
    var userInput := Lower(line);
    if userInput == "break" then Exit
    else if IsValid(userInput) then Send(userInput)
    else Reprompt
  }

  /** ASCII case does not change what the client does. */
  lemma CaseDoesNotMatter(line: string)
    ensures Classify(Lower(line)) == Classify(line)
  {
    LowerIdempotent(line);
  }

  /** Upper-case input is refused by the pattern itself: it has no lower-case letter. */
  lemma UpperCaseRejected()
    ensures !IsValid("UMASS.EDU")
  {
    var s := "UMASS.EDU";
    assert forall i :: 0 <= i < |s| ==> !IsLowerLetter(s[i]);
  }

  /** The client lower-cases a line before matching, so upper-case input is still sent. */
  lemma UpperCaseIsLowered()
    ensures Classify("UMASS.EDU") == Send("umass.edu")
  {
    var s := "UMASS.EDU";
    assert Lower(s) == "umass.edu" by {
      assert forall i :: 0 <= i < |s| ==> Lower(s)[i] == "umass.edu"[i];
    }
    assert DotBetweenLetters("umass.edu", 5);
  }

  /** Every line sent to the resolver has at least two labels, so the resolver's
      unpacking of the reversed labels never fails on it. */
  lemma SentNamesHaveTwoLabels(line: string)
    requires Classify(line).Send?
    ensures |SplitInput(Classify(line).domain)| >= 2
  {
    var d := Classify(line).domain;
    SplitInputSpec(d);
    var i :| 0 < i < |d| - 1 && DotBetweenLetters(d, i);
    assert '.' in d;
    assert '.' in multiset(d);
  }
}
