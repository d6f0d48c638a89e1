/**
 * The e-mail check of `standardize_formats`:
 * `Series.str.match(r'^[a-zA-Z0-9._%+-]+@[a-zA-Z0-9.-]+\.[a-zA-Z]{2,}$')`.
 *
 * `RegexMatch` states what the pattern accepts, split point by split point,
 * the way a backtracking matcher would find it. `EmailValid` is the direct
 * check (one `@`, a valid local part, a domain whose last dot is followed by
 * at least two letters), and `EmailValidIsRegex` proves the two agree on
 * every string. Python's `$` also matches just before a final newline, so a
 * single trailing "\n" is accepted by both.
 */
module Email {
  import opened Text
  import opened Wrappers

  predicate LocalChar(c: char)
  {
    IsLetter(c) || IsDigit(c) || c == '.' || c == '_' || c == '%' || c == '+' || c == '-'
  }

  predicate DomainChar(c: char)
  {
    IsLetter(c) || IsDigit(c) || c == '.' || c == '-'
  }

  predicate AllLocal(s: string) { forall i :: 0 <= i < |s| ==> LocalChar(s[i]) }
  predicate AllDomain(s: string) { forall i :: 0 <= i < |s| ==> DomainChar(s[i]) }
  predicate AllLetters(s: string) { forall i :: 0 <= i < |s| ==> IsLetter(s[i]) }

  // ------------------------------------------------------ the pattern

  /** The pattern matches all of `s` with `@` at `at` and the escaped dot at `dot`:
      `[a-zA-Z0-9._%+-]+` is `s[..at]`, `[a-zA-Z0-9.-]+` is `s[at+1..dot]`,
      `[a-zA-Z]{2,}` is `s[dot+1..]`. */
  ghost predicate MatchesAt(s: string, at: nat, dot: nat)
  {
    && 1 <= at && at + 2 <= dot && dot + 3 <= |s|
    && s[at] == '@' && s[dot] == '.'
    && AllLocal(s[..at]) && AllDomain(s[at + 1..dot]) && AllLetters(s[dot + 1..])
  }

  ghost predicate PatternFull(s: string)
  {
    exists at: nat, dot: nat :: MatchesAt(s, at, dot)
  }

  /** What `re.match` with `^...$` accepts: the whole string, or the whole
      string but a final newline. */
  ghost predicate RegexMatch(s: string)
  {
    PatternFull(s) || (|s| > 0 && s[|s| - 1] == '\n' && PatternFull(s[..|s| - 1]))
  }

  // ------------------------------------------------------ the direct check

  function CountChar(s: string, c: char): (n: nat)
    ensures n == 0 <==> c !in s
  {
    if s == [] then 0 else (if s[0] == c then 1 else 0) + CountChar(s[1..], c)
  }

  function FirstIndex(s: string, c: char): (r: Option<nat>)
    ensures r.None? <==> c !in s
    ensures r.Some? ==> r.value < |s| && s[r.value] == c && c !in s[..r.value]
  {
    if s == [] then None
    else if s[0] == c then Some(0)
    else match FirstIndex(s[1..], c)
      case None => None
      case Some(i) =>
        assert s[..i + 1] == [s[0]] + s[1..][..i];
        Some(i + 1)
  }

  function LastIndex(s: string, c: char): (r: Option<nat>)
    ensures r.None? <==> c !in s
    ensures r.Some? ==> r.value < |s| && s[r.value] == c && c !in s[r.value + 1..]
  {
    if s == [] then None
    else if s[|s| - 1] == c then Some(|s| - 1)
    else
      var front := s[..|s| - 1];
      match LastIndex(front, c)
      case None => assert s == front + [s[|s| - 1]]; None
      case Some(i) =>
        assert s[i + 1..] == front[i + 1..] + [s[|s| - 1]];
        Some(i)
  }

  /** The pattern without the newline allowance, checked piece by piece. */
  predicate FullValid(s: string)
  {
    CountChar(s, '@') == 1 &&
    match FirstIndex(s, '@')
    case None => false
    case Some(at) =>
      var local := s[..at];
      var domain := s[at + 1..];
      && |local| >= 1 && AllLocal(local) && AllDomain(domain)
      && match LastIndex(domain, '.')
         case None => false
         case Some(d) => d >= 1 && |domain| - d - 1 >= 2 && AllLetters(domain[d + 1..])
  }

  /** `Email_Valid` for one string. */
  predicate EmailValid(s: string)
  {
    FullValid(s) || (|s| > 0 && s[|s| - 1] == '\n' && FullValid(s[..|s| - 1]))
  }

  // ------------------------------------------------------ agreement

  lemma {:induction false} CountCharAppend(a: string, b: string, c: char)
    ensures CountChar(a + b, c) == CountChar(a, c) + CountChar(b, c)
  {
    if a == [] {
      assert a + b == b;
    } else {
      assert (a + b)[1..] == a[1..] + b;
      CountCharAppend(a[1..], b, c);
    }
  }

  lemma FullValidMatches(s: string)
    requires FullValid(s)
    ensures PatternFull(s)
  {
    var at := FirstIndex(s, '@').value;
    var domain := s[at + 1..];
    var d := LastIndex(domain, '.').value;
    var dot := at + 1 + d;
    assert s[at + 1..dot] == domain[..d];
    assert s[dot + 1..] == domain[d + 1..];
    assert MatchesAt(s, at, dot);
  }

  /** A character that occurs once, at `i`, is counted once and found at `i`. */
  lemma {:induction false} OnlyAt(s: string, c: char, i: nat)
    requires i < |s| && s[i] == c && c !in s[..i] && c !in s[i + 1..]
    ensures CountChar(s, c) == 1 && FirstIndex(s, c) == Some(i)
  {
    assert s == s[..i] + [c] + s[i + 1..];
    CountCharAppend(s[..i] + [c], s[i + 1..], c);
    CountCharAppend(s[..i], [c], c);
  }

  lemma LastIndexAt(s: string, c: char, i: nat)
    requires i < |s| && s[i] == c && c !in s[i + 1..]
    ensures LastIndex(s, c) == Some(i)
  {
  }

  lemma MatchesFullValid(s: string, at: nat, dot: nat)
    requires MatchesAt(s, at, dot)
    ensures FullValid(s)
  {
    var domain := s[at + 1..];
    var d := dot - at - 1;
    assert domain[d + 1..] == s[dot + 1..];
    assert domain[..d] == s[at + 1..dot];
    assert '@' !in s[..at] by {
      forall i | 0 <= i < at ensures s[..at][i] != '@' { assert LocalChar(s[..at][i]); }
    }
    assert AllDomain(domain) by {
      forall i | 0 <= i < |domain| ensures DomainChar(domain[i]) {
        if i < d {
          assert domain[i] == domain[..d][i];
        } else if i > d {
          assert domain[i] == domain[d + 1..][i - d - 1];
        }
      }
    }
    assert '@' !in domain by {
      forall i | 0 <= i < |domain| ensures domain[i] != '@' { assert DomainChar(domain[i]); }
    }
    OnlyAt(s, '@', at);
    var tld := domain[d + 1..];
    assert '.' !in tld by {
      forall i | 0 <= i < |tld| ensures tld[i] != '.' { assert IsLetter(tld[i]); }
    }
    LastIndexAt(domain, '.', d);
  }

  lemma FullValidIsPattern(s: string)
    ensures FullValid(s) <==> PatternFull(s)
  {
    if FullValid(s) {
      FullValidMatches(s);
    }
    if PatternFull(s) {
      var at: nat, dot: nat :| MatchesAt(s, at, dot);
      MatchesFullValid(s, at, dot);
    }
  }

  /** The direct check accepts exactly the strings the regex accepts. */
  lemma EmailValidIsRegex(s: string)
    ensures EmailValid(s) <==> RegexMatch(s)
  {
    FullValidIsPattern(s);
    if |s| > 0 {
      FullValidIsPattern(s[..|s| - 1]);
    }
  }

  lemma EmailValidIsRegexEverywhere()
    ensures forall s :: EmailValid(s) <==> RegexMatch(s)
  {
    forall s ensures EmailValid(s) <==> RegexMatch(s) {
      EmailValidIsRegex(s);
    }
  }

  /** An address needs an `@`: a string without one is never valid. */
  lemma NoAtInvalid(s: string)
    requires '@' !in s
    ensures !EmailValid(s)
  {
    if |s| > 0 {
      assert '@' !in s[..|s| - 1] by {
        var front := s[..|s| - 1];
        forall i | 0 <= i < |front| ensures front[i] != '@' { assert front[i] == s[i]; }
      }
    }
  }

  /** Two `@`s make an address invalid, whatever surrounds them. */
  lemma TwoAtsInvalid(s: string, i: nat, j: nat)
    requires i < j < |s| && s[i] == '@' && s[j] == '@'
    ensures !FullValid(s)
  {
    TwoAtsCount(s, i, j);
  }

  /** Two positions holding `@` are counted twice. */
  lemma TwoAtsCount(s: string, i: nat, j: nat)
    requires i < j < |s| && s[i] == '@' && s[j] == '@'
    ensures CountChar(s, '@') >= 2
  {
    var p, q, r := s[..i], s[i..j], s[j..];
    assert q[0] == '@' && r[0] == '@';
    assert '@' in q && '@' in r;
    assert s[..j] == p + q;
    assert s == s[..j] + r;
    CountCharAppend(s[..j], r, '@');
    CountCharAppend(p, q, '@');
  }
}
