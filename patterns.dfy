/**
 * The two regular expressions of the feedback form's validator, written
 * out by hand.
 *
 * Email, `^[^\s@]+@[^\s@]+\.[^\s@]+$`: stated once as the shape the
 * regex describes (`EmailShape`, three runs of allowed characters glued
 * by "@" and ".") and once as a direct scanner (`EmailMatches`); the two
 * are proved equal.
 *
 * Phone, `^[\+]?[7-8][\s\-]?\(?[489][0-9]{2}\)?[\s\-]?[0-9]{3}[\s\-]?[0-9]{2}[\s\-]?[0-9]{2}$`:
 * a sequence of single-character items, each required or optional. The
 * regex meaning (`Matches`, which may try both choices of every optional
 * item) is compared with a one-pass greedy matcher (`MatchGreedy`), and
 * the two agree whenever no optional item can clash with what follows it,
 * which holds for the phone pattern.
 */
module Patterns {
  import opened Chars

  // ---------------------------------------------------------------- email

  /** `[^\s@]`: any character but whitespace and "@". */
  predicate IsEmailChar(c: char)
  {
    !IsWhitespace(c) && c != '@'
  }

  /** `[^\s@]+`: a non-empty run of allowed characters. */
  ghost predicate EmailRun(s: string)
  {
    |s| > 0 && forall i :: 0 <= i < |s| ==> IsEmailChar(s[i])
  }

  /** The language of the email regex: `l + "@" + x + "." + y` with three allowed runs. */
  ghost predicate EmailShape(s: string)
  {
    exists l, x, y {:trigger EmailRun(l), EmailRun(x), EmailRun(y)} ::
      && EmailRun(l) && EmailRun(x) && EmailRun(y)
      && s == l + "@" + x + "." + y
  }

  /** Index of the first `c` in `s` at or after `i`, or `|s|` when there is none. */
  function FindFrom(s: string, c: char, i: nat): (j: nat)
    requires i <= |s|
    ensures i <= j <= |s|
    ensures j < |s| ==> s[j] == c
    ensures forall k :: i <= k < j ==> s[k] != c
    decreases |s| - i
  {
    if i == |s| || s[i] == c then i else FindFrom(s, c, i + 1)
  }

  /** `s.indexOf(c)`, with `|s|` standing for "absent". */
  function IndexOf(s: string, c: char): nat
  {
    FindFrom(s, c, 0)
  }

  /**
   * The email test as a scan: a first "@" that is not the first character,
   * no whitespace anywhere, no second "@", and a "." after the "@" with at
   * least one character on each side of it.
   */
  predicate EmailMatches(s: string)
  {
    var at := IndexOf(s, '@');
    && 0 < at < |s|
    && (forall k | 0 <= k < |s| :: !IsWhitespace(s[k]))
    && (forall k | at < k < |s| :: s[k] != '@')
    && (exists k | at + 1 < k < |s| - 1 :: s[k] == '.')
  }

  /** The scanner accepts exactly the language of the email regex. */
  lemma EmailMatchesIffShape(s: string)
    ensures EmailMatches(s) <==> EmailShape(s)
  {
    if EmailMatches(s) {
      var at := IndexOf(s, '@');
      var k :| at + 1 < k < |s| - 1 && s[k] == '.';
      var l, x, y := s[..at], s[at + 1..k], s[k + 1..];
      assert s == l + "@" + x + "." + y;
      assert EmailRun(l) && EmailRun(x) && EmailRun(y);
    }
    if EmailShape(s) {
      var l, x, y :| EmailRun(l) && EmailRun(x) && EmailRun(y) && s == l + "@" + x + "." + y;
      assert s[|l|] == '@';
      assert forall k :: 0 <= k < |l| ==> s[k] == l[k];
      var at := IndexOf(s, '@');
      assert at == |l|;
      var dot := |l| + 1 + |x|;
      assert s[dot] == '.';
      forall k | 0 <= k < |s| ensures !IsWhitespace(s[k]) && (k != at ==> s[k] != '@') {
        if k < |l| {
          assert s[k] == l[k];
        } else if k == at {
        } else if k < dot {
          assert s[k] == x[k - at - 1];
        } else if k > dot {
          assert s[k] == y[k - dot - 1];
        }
      }
    }
  }

  // ------------------------------------------------------------ phone

  /** The character classes the phone regex uses. */
  datatype CharClass =
    | Plus          // [\+]
    | CountryDigit  // [7-8]
    | Separator     // [\s\-]
    | OpenParen     // \(
    | PrefixDigit   // [489]
    | Digit         // [0-9]
    | CloseParen    // \)

  predicate IsDigit(c: char)
  {
    '0' <= c <= '9'
  }

  predicate InClass(k: CharClass, c: char)
  {
    match k
    case Plus => c == '+'
    case CountryDigit => c == '7' || c == '8'
    case Separator => IsWhitespace(c) || c == '-'
    case OpenParen => c == '('
    case PrefixDigit => c == '4' || c == '8' || c == '9'
    case Digit => IsDigit(c)
    case CloseParen => c == ')'
  }

  /** One regex atom: a class taken exactly once, or optionally (`?`). */
  datatype Item = One(cls: CharClass) | Opt(cls: CharClass)

  /** An anchored concatenation of atoms. */
  datatype Pattern = End | Then(head: Item, rest: Pattern)

  /** The phone regex between `^` and `$`: `[\+]?[7-8][\s\-]?` followed by the area code. */
  const PhonePattern: Pattern :=
    Then(Opt(Plus), Then(One(CountryDigit), Then(Opt(Separator), AreaCode)))

  /** `\(?[489][0-9]{2}\)?` followed by the subscriber number. */
  const AreaCode: Pattern :=
    Then(Opt(OpenParen), Then(One(PrefixDigit), Then(One(Digit), Then(One(Digit),
    Then(Opt(CloseParen), Subscriber)))))

  /** `[\s\-]?[0-9]{3}[\s\-]?[0-9]{2}[\s\-]?[0-9]{2}`, with `{n}` written out as n copies. */
  const Subscriber: Pattern :=
    Then(Opt(Separator), Then(One(Digit), Then(One(Digit), Then(One(Digit),
    Then(Opt(Separator), Then(One(Digit), Then(One(Digit),
    Then(Opt(Separator), Then(One(Digit), Then(One(Digit),
    End))))))))))

  /** Regex semantics: `p` matches exactly `s[i..]`, where an optional atom may be skipped or taken. */
  ghost predicate Matches(p: Pattern, s: string, i: nat)
    requires i <= |s|
  {
    match p
    case End => i == |s|
    case Then(One(k), rest) => i < |s| && InClass(k, s[i]) && Matches(rest, s, i + 1)
    case Then(Opt(k), rest) =>
      || Matches(rest, s, i)
      || (i < |s| && InClass(k, s[i]) && Matches(rest, s, i + 1))
  }

  /** One left-to-right pass over `s[i..]` that takes an optional atom whenever the next character fits it. */
  predicate MatchGreedy(p: Pattern, s: string, i: nat)
    requires i <= |s|
  {
    match p
    case End => i == |s|
    case Then(One(k), rest) => i < |s| && InClass(k, s[i]) && MatchGreedy(rest, s, i + 1)
    case Then(Opt(k), rest) =>
      if i < |s| && InClass(k, s[i]) then MatchGreedy(rest, s, i + 1)
      else MatchGreedy(rest, s, i)
  }

  /** The classes a non-empty match of `p` can start with. */
  function First(p: Pattern): set<CharClass>
  {
    match p
    case End => {}
    case Then(One(k), _) => {k}
    case Then(Opt(k), rest) => {k} + First(rest)
  }

  /** No character belongs to both classes. */
  ghost predicate Disjoint(j: CharClass, k: CharClass)
  {
    forall c :: !(InClass(j, c) && InClass(k, c))
  }

  /** Classes made only of digits; every other class holds none. */
  predicate DigitClass(k: CharClass)
  {
    k == CountryDigit || k == PrefixDigit || k == Digit
  }

  /** Whether two classes share a character: a class with itself, and any two digit classes (all hold '8'). */
  predicate Overlaps(j: CharClass, k: CharClass)
  {
    j == k || (DigitClass(j) && DigitClass(k))
  }

  /** `Overlaps` decides class intersection exactly. */
  lemma OverlapsIffNotDisjoint(j: CharClass, k: CharClass)
    ensures Overlaps(j, k) <==> !Disjoint(j, k)
  {
    if Overlaps(j, k) {
      var c := match j
        case Plus => '+'
        case Separator => '-'
        case OpenParen => '('
        case CloseParen => ')'
        case _ => '8';
      assert InClass(j, c) && InClass(k, c);
    }
  }

  /** No optional atom can take a character that whatever follows it could also start with. */
  predicate Deterministic(p: Pattern)
  {
    match p
    case End => true
    case Then(it, rest) =>
      && (it.Opt? ==> forall k :: k in First(rest) ==> !Overlaps(it.cls, k))
      && Deterministic(rest)
  }

  /** The first character of any non-empty match belongs to a class in `First`. */
  lemma {:induction false} FirstCovers(p: Pattern, s: string, i: nat)
    requires i < |s| && Matches(p, s, i)
    ensures exists k :: k in First(p) && InClass(k, s[i])
  {
    match p
    case Then(One(k), _) =>
    case Then(Opt(k), rest) =>
      if !InClass(k, s[i]) {
        FirstCovers(rest, s, i);
      }
  }

  /** On a deterministic pattern the greedy pass decides regex matching exactly. */
  lemma {:induction false} GreedyIsExact(p: Pattern, s: string, i: nat)
    requires Deterministic(p) && i <= |s|
    ensures MatchGreedy(p, s, i) <==> Matches(p, s, i)
  {
    match p
    case End =>
    case Then(One(k), rest) =>
      if i < |s| {
        GreedyIsExact(rest, s, i + 1);
      }
    case Then(Opt(k), rest) =>
      GreedyIsExact(rest, s, i);
      if i < |s| && InClass(k, s[i]) {
        GreedyIsExact(rest, s, i + 1);
        if Matches(rest, s, i) {
          // a match of the rest would start with a character of a class disjoint from k
          FirstCovers(rest, s, i);
          var j :| j in First(rest) && InClass(j, s[i]);
          OverlapsIffNotDisjoint(k, j);
        }
      }
  }

  /** No optional atom of the phone pattern can clash with its successor. */
  lemma PhonePatternDeterministic()
    ensures Deterministic(PhonePattern)
  {
    assert Deterministic(Subscriber) && First(Subscriber) == {Separator, Digit};
    assert Deterministic(AreaCode) && First(AreaCode) == {OpenParen, PrefixDigit};
  }

  /**
   * The source's phone test: whitespace removed, then the phone regex.
   * Decided in one greedy pass.
   */
  predicate PhoneMatches(raw: string)
  {
    MatchGreedy(PhonePattern, StripWhitespace(raw), 0)
  }

  /** The greedy pass agrees with the regex on every input. */
  lemma PhoneMatchesIffRegex(raw: string)
    ensures PhoneMatches(raw) <==> Matches(PhonePattern, StripWhitespace(raw), 0)
  {
    PhonePatternDeterministic();
    GreedyIsExact(PhonePattern, StripWhitespace(raw), 0);
  }

  /** Number of ASCII digits in `s[i..]`. */
  function DigitsFrom(s: string, i: nat): nat
    requires i <= |s|
    decreases |s| - i
  {
    if i == |s| then 0 else (if IsDigit(s[i]) then 1 else 0) + DigitsFrom(s, i + 1)
  }

  /** Number of required digit atoms: the digits every match of `p` carries. */
  function RequiredDigits(p: Pattern): nat
  {
    match p
    case End => 0
    case Then(it, rest) => (if it.One? && DigitClass(it.cls) then 1 else 0) + RequiredDigits(rest)
  }

  /** No optional atom of `p` can take a digit. */
  predicate OptionalsDigitFree(p: Pattern)
  {
    match p
    case End => true
    case Then(it, rest) => (it.Opt? ==> !DigitClass(it.cls)) && OptionalsDigitFree(rest)
  }

  lemma ClassDigits(k: CharClass, c: char)
    requires InClass(k, c)
    ensures IsDigit(c) <==> DigitClass(k)
  {
  }

  /** When optional atoms hold no digits, a match carries exactly the required digit atoms' count. */
  lemma {:induction false} MatchDigitCount(p: Pattern, s: string, i: nat)
    requires OptionalsDigitFree(p)
    requires i <= |s| && Matches(p, s, i)
    ensures DigitsFrom(s, i) == RequiredDigits(p)
  {
    match p
    case End =>
    case Then(One(k), rest) =>
      ClassDigits(k, s[i]);
      MatchDigitCount(rest, s, i + 1);
    case Then(Opt(k), rest) =>
      if Matches(rest, s, i) {
        MatchDigitCount(rest, s, i);
      } else {
        ClassDigits(k, s[i]);
        MatchDigitCount(rest, s, i + 1);
      }
  }

  /** Every accepted phone number has exactly eleven digits once whitespace is removed. */
  lemma PhoneHasElevenDigits(raw: string)
    requires PhoneMatches(raw)
    ensures DigitsFrom(StripWhitespace(raw), 0) == 11
  {
    PhoneMatchesIffRegex(raw);
    assert OptionalsDigitFree(Subscriber) && RequiredDigits(Subscriber) == 7;
    assert OptionalsDigitFree(AreaCode) && RequiredDigits(AreaCode) == 10;
    MatchDigitCount(PhonePattern, StripWhitespace(raw), 0);
  }
}
