/**
  The e-mail check of `User`: the pattern
  `^[a-zA-Z0-9_.+-]+@[a-zA-Z0-9-]+\.[a-zA-Z0-9-.]+$` applied with Python's
  `re.match`.

  `MatchesPattern` is the declarative reading of that pattern: a local part,
  `@`, a label, `.`, a tail, where Python's `$` also matches just before one
  final newline. `IsEmail` is a left-to-right scanner (a deterministic
  automaton) and `ScannerMatchesPattern` proves the two agree on every string.
*/
module EmailPattern {

  /** ASCII letters and digits, the ranges `a-z`, `A-Z`, `0-9` of the pattern. */
  predicate IsAlnum(c: char) {
    ('a' <= c <= 'z') || ('A' <= c <= 'Z') || ('0' <= c <= '9')
  }

  /** `[a-zA-Z0-9_.+-]`: characters of the part before `@`. */
  predicate IsLocalChar(c: char) {
    IsAlnum(c) || c == '_' || c == '.' || c == '+' || c == '-'
  }

  /** `[a-zA-Z0-9-]`: characters of the label between `@` and the first `.`. */
  predicate IsLabelChar(c: char) {
    IsAlnum(c) || c == '-'
  }

  /** `[a-zA-Z0-9-.]`: characters after that `.`; the class holds `-` and `.`. */
  predicate IsTailChar(c: char) {
    IsAlnum(c) || c == '-' || c == '.'
  }

  predicate AllLocal(s: seq<char>) { forall k :: 0 <= k < |s| ==> IsLocalChar(s[k]) }
  predicate AllLabel(s: seq<char>) { forall k :: 0 <= k < |s| ==> IsLabelChar(s[k]) }
  predicate AllTail(s: seq<char>) { forall k :: 0 <= k < |s| ==> IsTailChar(s[k]) }

  /** `s` is local-part `@` label `.` tail, with `@` at `at` and `.` at `dot`,
      each of the three parts non-empty. */
  ghost predicate SplitAt(s: seq<char>, at: int, dot: int) {
    && 0 < at && at + 1 < dot && dot + 1 < |s|
    && s[at] == '@' && s[dot] == '.'
    && AllLocal(s[..at]) && AllLabel(s[at + 1..dot]) && AllTail(s[dot + 1..])
  }

  /** The pattern between `^` and `$`, read as a concatenation. */
  ghost predicate InPattern(s: seq<char>) {
    exists at, dot :: SplitAt(s, at, dot)
  }

  /** What `re.match` accepts: `$` matches at the end of the string or just
      before a newline that ends it. */
  ghost predicate MatchesPattern(s: seq<char>) {
    || InPattern(s)
    || (|s| > 0 && s[|s| - 1] == '\n' && InPattern(s[..|s| - 1]))
  }

  /** Scanner states: what has been read so far. */
  datatype State =
    | Start         // nothing
    | Local         // a non-empty local part
    | AfterAt       // local part and `@`
    | Label         // ... and a non-empty label
    | AfterDot      // ... and the `.`
    | Tail          // ... and a non-empty tail: a full match
    | AfterNewline  // a full match followed by one newline
    | Reject        // no extension can match

  /** One transition of the scanner. */
  function Step(st: State, c: char): State {
    match st
    case Start => if IsLocalChar(c) then Local else Reject
    case Local => if IsLocalChar(c) then Local else if c == '@' then AfterAt else Reject
    case AfterAt => if IsLabelChar(c) then Label else Reject
    case Label => if IsLabelChar(c) then Label else if c == '.' then AfterDot else Reject
    case AfterDot => if IsTailChar(c) then Tail else Reject
    case Tail => if IsTailChar(c) then Tail else if c == '\n' then AfterNewline else Reject
    case AfterNewline => Reject
    case Reject => Reject
  }

  /** The state reached from `st` after reading all of `s`, front to back. */
  function Run(st: State, s: seq<char>): State
    decreases |s|
  {
    if s == [] then st else Run(Step(st, s[0]), s[1..])
  }

  predicate Accepting(st: State) {
    st == Tail || st == AfterNewline
  }

  /** The recogniser `User.check_email` relies on. */
  predicate IsEmail(s: seq<char>) {
    Accepting(Run(Start, s))
  }

  /** Reading one more character is one more step. */
  lemma {:induction false} RunSnoc(st: State, p: seq<char>, c: char)
    ensures Run(st, p + [c]) == Step(Run(st, p), c)
    decreases |p|
  {
    if p == [] {
      assert p + [c] == [c];
      assert [c][1..] == [];
    } else {
      assert (p + [c])[1..] == p[1..] + [c];
      RunSnoc(Step(st, p[0]), p[1..], c);
    }
  }

  /** What each state says about the prefix read to reach it. */
  ghost predicate Describes(st: State, p: seq<char>) {
    match st
    case Start => p == []
    case Local => p != [] && AllLocal(p)
    case AfterAt => |p| >= 2 && p[|p| - 1] == '@' && AllLocal(p[..|p| - 1])
    case Label =>
      exists at :: 0 < at && at + 1 < |p| && p[at] == '@' && AllLocal(p[..at]) && AllLabel(p[at + 1..])
    case AfterDot =>
      exists at :: 0 < at && at + 2 < |p| && p[at] == '@' && p[|p| - 1] == '.'
        && AllLocal(p[..at]) && AllLabel(p[at + 1..|p| - 1])
    case Tail => InPattern(p)
    case AfterNewline => |p| > 0 && p[|p| - 1] == '\n' && InPattern(p[..|p| - 1])
    case Reject => true
  }

  /** Each transition keeps its state's description true. */
  lemma StepDescribes(st: State, p: seq<char>, c: char)
    requires Describes(st, p)
    ensures Describes(Step(st, c), p + [c])
  {
    var q := p + [c];
    assert q[..|p|] == p;
    match st
    case Start =>
    case Local =>
    case AfterAt =>
      if IsLabelChar(c) {
        var at := |p| - 1;
        assert q[at + 1..] == [c];
        assert q[..at] == p[..at];
      }
    case Label =>
      var at :| 0 < at && at + 1 < |p| && p[at] == '@' && AllLocal(p[..at]) && AllLabel(p[at + 1..]);
      assert q[..at] == p[..at];
      if IsLabelChar(c) {
        assert q[at + 1..] == p[at + 1..] + [c];
      } else if c == '.' {
        assert q[at + 1..|q| - 1] == p[at + 1..];
      }
    case AfterDot =>
      var at :| 0 < at && at + 2 < |p| && p[at] == '@' && p[|p| - 1] == '.'
        && AllLocal(p[..at]) && AllLabel(p[at + 1..|p| - 1]);
      if IsTailChar(c) {
        var dot := |p| - 1;
        assert q[..at] == p[..at];
        assert q[at + 1..dot] == p[at + 1..|p| - 1];
        assert q[dot + 1..] == [c];
        assert SplitAt(q, at, dot);
      }
    case Tail =>
      var at, dot :| SplitAt(p, at, dot);
      if IsTailChar(c) {
        assert q[..at] == p[..at];
        assert q[at + 1..dot] == p[at + 1..dot];
        assert q[dot + 1..] == p[dot + 1..] + [c];
        assert SplitAt(q, at, dot);
      }
    case AfterNewline =>
    case Reject =>
  }

  /** Soundness: the state the scanner reaches describes the whole input. */
  lemma {:induction false} RunDescribes(s: seq<char>)
    ensures Describes(Run(Start, s), s)
    decreases |s|
  {
    if s == [] {
    } else {
      var p, c := s[..|s| - 1], s[|s| - 1];
      assert s == p + [c];
      RunDescribes(p);
      RunSnoc(Start, p, c);
      StepDescribes(Run(Start, p), p, c);
    }
  }

  /** The state the scanner is in after `n` characters of a string split at `at`, `dot`. */
  function Expected(n: nat, at: int, dot: int): State {
    if n == 0 then Start
    else if n <= at then Local
    else if n == at + 1 then AfterAt
    else if n <= dot then Label
    else if n == dot + 1 then AfterDot
    else Tail
  }

  /** Completeness, one prefix at a time: on a matching string the scanner
      passes through exactly the expected states. */
  lemma {:induction false} RunFollowsSplit(s: seq<char>, at: int, dot: int, n: nat)
    requires SplitAt(s, at, dot)
    requires n <= |s|
    ensures Run(Start, s[..n]) == Expected(n, at, dot)
    decreases n
  {
    if n == 0 {
      assert s[..0] == [];
    } else {
      var k := n - 1;
      RunFollowsSplit(s, at, dot, k);
      assert s[..n] == s[..k] + [s[k]];
      RunSnoc(Start, s[..k], s[k]);
      if k < at {
        assert s[..at][k] == s[k];
      } else if k == at {
      } else if k < dot {
        assert s[at + 1..dot][k - at - 1] == s[k];
      } else if k == dot {
      } else {
        assert s[dot + 1..][k - dot - 1] == s[k];
      }
    }
  }

  /** The scanner accepts a string exactly when `re.match` with the pattern does. */
  lemma ScannerMatchesPattern(s: seq<char>)
    ensures IsEmail(s) <==> MatchesPattern(s)
  {
    RunDescribes(s);
    if InPattern(s) {
      var at, dot :| SplitAt(s, at, dot);
      RunFollowsSplit(s, at, dot, |s|);
      assert s[..|s|] == s;
    } else if |s| > 0 && s[|s| - 1] == '\n' && InPattern(s[..|s| - 1]) {
      var p := s[..|s| - 1];
      var at, dot :| SplitAt(p, at, dot);
      RunFollowsSplit(p, at, dot, |p|);
      assert p[..|p|] == p;
      assert s == p + ['\n'];
      RunSnoc(Start, p, '\n');
    }
  }

  /** Without a final newline the pattern is the plain concatenation. */
  lemma NoNewlineMeansConcatenation(s: seq<char>)
    requires s == [] || s[|s| - 1] != '\n'
    ensures IsEmail(s) <==> InPattern(s)
  {
    ScannerMatchesPattern(s);
  }

  /** A match of the bare pattern ends in a tail character, never a newline. */
  lemma MatchEndsInTailChar(s: seq<char>)
    requires InPattern(s)
    ensures IsTailChar(s[|s| - 1])
  {
    var at, dot :| SplitAt(s, at, dot);
    assert s[dot + 1..][|s| - dot - 2] == s[|s| - 1];
  }

  /** The trailing-newline allowance of `$` admits exactly one newline. */
  lemma TrailingNewline(s: seq<char>)
    ensures IsEmail(s + ['\n']) <==> InPattern(s)
  {
    var t := s + ['\n'];
    assert t[..|t| - 1] == s;
    ScannerMatchesPattern(t);
    if InPattern(t) {
      MatchEndsInTailChar(t);
    }
  }

  /** Every accepted string contains an `@`. */
  lemma MatchHasAt(s: seq<char>)
    requires MatchesPattern(s)
    ensures '@' in s
  {
    if InPattern(s) {
      var at, dot :| SplitAt(s, at, dot);
      assert s[at] == '@';
    } else {
      var p := s[..|s| - 1];
      var at, dot :| SplitAt(p, at, dot);
      assert s[at] == p[at] == '@';
    }
  }

  // Sample inputs.

  lemma AcceptsShortTail()
    ensures MatchesPattern("a@b.c.d")
  {
    ScannerMatchesPattern("a@b.c.d");
  }

  lemma AcceptsDottedDomain()
    ensures MatchesPattern("j.d+x@m-s.e.com")
  {
    var s := "j.d+x@m-s.e.com";
    assert s[..5] == "j.d+x" && s[6..9] == "m-s" && s[10..] == "e.com";
    assert SplitAt(s, 5, 9);
  }

  lemma AcceptsOneTrailingNewline()
    ensures MatchesPattern("a@b.c\n")
  {
    assert SplitAt("a@b.c", 1, 3);
    TrailingNewline("a@b.c");
    assert "a@b.c" + ['\n'] == "a@b.c\n";
    ScannerMatchesPattern("a@b.c\n");
  }

  lemma RejectsMissingDot()
    ensures !MatchesPattern("a@b")
  {
    ScannerMatchesPattern("a@b");
  }

  lemma RejectsMissingAt()
    ensures !MatchesPattern("not-an-email")
  {
    assert '@' !in "not-an-email";
    if MatchesPattern("not-an-email") {
      MatchHasAt("not-an-email");
    }
  }

  lemma RejectsEmptyLocalPart()
    ensures !MatchesPattern("@b.c")
  {
    ScannerMatchesPattern("@b.c");
  }

  lemma RejectsEmptyLabel()
    ensures !MatchesPattern("a@.c")
  {
    ScannerMatchesPattern("a@.c");
  }

  lemma RejectsTwoTrailingNewlines()
    ensures !MatchesPattern("a@b.c\n\n")
  {
    ScannerMatchesPattern("a@b.c\n\n");
  }
}
