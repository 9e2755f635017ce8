/**
  The e-mail check of the signup form: the JavaScript regular expression
  `^[\w-\.]+@([\w-]+\.)+[\w-]{2,4}$` (no flags).

  `MatchesEmailPattern` restates the regular expression piece by piece (one
  predicate per sub-expression, concatenation as a split point); `IsEmail` is a
  hand-coded left-to-right character recognizer (a finite automaton), and
  `RecognizerCorrect` proves the two agree on every string.

  Without the `u` flag, `\w` is the ASCII class `[A-Za-z0-9_]`, and the class
  `[\w-\.]` is read as the union of `\w`, '-' and '.', since a range cannot
  start at a class escape.
*/
module EmailPattern {

  /** `\w` */
  predicate IsWordChar(c: char) {
    ('a' <= c <= 'z') || ('A' <= c <= 'Z') || ('0' <= c <= '9') || c == '_'
  }

  /** `[\w-\.]` */
  predicate IsLocalChar(c: char) {
    IsWordChar(c) || c == '-' || c == '.'
  }

  /** `[\w-]` */
  predicate IsLabelChar(c: char) {
    IsWordChar(c) || c == '-'
  }

  predicate AllLabelChars(s: string) {
    forall i :: 0 <= i < |s| ==> IsLabelChar(s[i])
  }

  // ---------------------------------------------------------------------------
  // The regular expression, sub-expression by sub-expression
  // ---------------------------------------------------------------------------

  /** `[\w-\.]+` */
  predicate LocalPart(s: string) {
    |s| >= 1 && forall i :: 0 <= i < |s| ==> IsLocalChar(s[i])
  }

  /** `[\w-]+\.` */
  predicate LabelDot(s: string) {
    |s| >= 2 && s[|s| - 1] == '.' && AllLabelChars(s[..|s| - 1])
  }

  /** `([\w-]+\.)+`: one piece, or a shorter match followed by one more piece */
  predicate Labels(s: string)
    decreases |s|
  {
    LabelDot(s) || exists j :: 0 < j < |s| && Labels(s[..j]) && LabelDot(s[j..])
  }

  /** `[\w-]{2,4}` */
  predicate TopLevel(s: string) {
    2 <= |s| <= 4 && AllLabelChars(s)
  }

  /** `([\w-]+\.)+[\w-]{2,4}` */
  predicate Domain(s: string) {
    exists j :: 0 < j < |s| && Labels(s[..j]) && TopLevel(s[j..])
  }

  /** `^[\w-\.]+@([\w-]+\.)+[\w-]{2,4}$` matches the whole of `s` */
  predicate MatchesEmailPattern(s: string) {
    exists j :: 0 < j < |s| && LocalPart(s[..j]) && s[j] == '@' && Domain(s[j + 1..])
  }

  // ---------------------------------------------------------------------------
  // The recognizer
  // ---------------------------------------------------------------------------

  /**
    States of the recognizer. `InSegment(n)`: the domain so far is one or more
    labels each closed by '.', followed by `n` label characters (`n` counts up
    to 5, which stands for "five or more").
  */
  datatype State = Start | InLocal | AfterAt | InFirstLabel | InSegment(n: nat) | Dead

  function Step(q: State, c: char): State {
    match q
    case Start => if IsLocalChar(c) then InLocal else Dead
    case InLocal => if IsLocalChar(c) then InLocal else if c == '@' then AfterAt else Dead
    case AfterAt => if IsLabelChar(c) then InFirstLabel else Dead
    case InFirstLabel => if IsLabelChar(c) then InFirstLabel else if c == '.' then InSegment(0) else Dead
    case InSegment(n) =>
      if IsLabelChar(c) then InSegment(if n < 5 then n + 1 else 5)
      else if c == '.' && n > 0 then InSegment(0)
      else Dead
    case Dead => Dead
  }

  /** The state reached from `q` after reading `s` from left to right. */
  function Run(q: State, s: string): State
    decreases |s|
  {
    if s == [] then q else Step(Run(q, s[..|s| - 1]), s[|s| - 1])
  }

  predicate Accepting(q: State) {
    q.InSegment? && 2 <= q.n <= 4
  }

  /** The recognizer used by the signup validator. */
  function IsEmail(s: string): (b: bool)
    ensures b <==> MatchesEmailPattern(s)
  {
    RecognizerCorrect(s);
    Accepting(Run(Start, s))
  }

  // ---------------------------------------------------------------------------
  // Correctness of the recognizer
  // ---------------------------------------------------------------------------

  lemma {:induction false} RecognizerCorrect(s: string)
    ensures Accepting(Run(Start, s)) <==> MatchesEmailPattern(s)
  {
    if Accepting(Run(Start, s)) {
      RecognizerSound(s);
    }
    if MatchesEmailPattern(s) {
      RecognizerComplete(s);
    }
  }

  /** What having reached each state says about the input read so far. */
  ghost predicate Reached(q: State, s: string) {
    match q
    case Start => s == []
    case InLocal => LocalPart(s)
    case AfterAt => |s| >= 2 && s[|s| - 1] == '@' && LocalPart(s[..|s| - 1])
    case InFirstLabel =>
      exists j :: 0 < j && j + 1 < |s| && LocalPart(s[..j]) && s[j] == '@' && AllLabelChars(s[j + 1..])
    case InSegment(n) =>
      exists j, k :: SegmentSplit(s, j, k) && (if n < 5 then |s| - k == n else |s| - k >= 5)
    case Dead => true
  }

  /** `s[..j]` is a local part, `s[j]` the '@', `s[j+1..k]` labels, `s[k..]` label characters. */
  ghost predicate SegmentSplit(s: string, j: int, k: int) {
    0 < j && j + 1 < k <= |s| && LocalPart(s[..j]) && s[j] == '@'
    && Labels(s[j + 1..k]) && AllLabelChars(s[k..])
  }

  lemma {:induction false} LabelsExtend(a: string, b: string)
    requires Labels(a) && LabelDot(b)
    ensures Labels(a + b)
  {
    var ab := a + b;
    assert ab[..|a|] == a && ab[|a|..] == b;
  }

  lemma {:induction false} StepReached(q: State, s: string, c: char)
    requires Reached(q, s)
    ensures Reached(Step(q, c), s + [c])
  {
    var t := s + [c];
    assert t[..|s|] == s;
    match q
    case Start =>
      if IsLocalChar(c) { assert t == [c]; }
    case InLocal =>
    case AfterAt => StepAfterAt(s, c);
    case InFirstLabel => StepInFirstLabel(s, c);
    case InSegment(n) => StepInSegment(n, s, c);
    case Dead =>
  }

  lemma {:induction false} StepAfterAt(s: string, c: char)
    requires Reached(AfterAt, s)
    ensures Reached(Step(AfterAt, c), s + [c])
  {
    if IsLabelChar(c) {
      var t := s + [c];
      var j := |s| - 1;
      assert t[..j] == s[..j];
      assert t[j + 1..] == [c];
    }
  }

  lemma {:induction false} StepInFirstLabel(s: string, c: char)
    requires Reached(InFirstLabel, s)
    ensures Reached(Step(InFirstLabel, c), s + [c])
  {
    var t := s + [c];
    var j :| 0 < j && j + 1 < |s| && LocalPart(s[..j]) && s[j] == '@' && AllLabelChars(s[j + 1..]);
    assert t[..j] == s[..j];
    if IsLabelChar(c) {
      assert t[j + 1..] == s[j + 1..] + [c];
    } else if c == '.' {
      assert t[j + 1..|t|] == s[j + 1..] + [c];
      assert LabelDot(t[j + 1..|t|]);
      assert t[|t|..] == [];
      assert SegmentSplit(t, j, |t|);
    }
  }

  lemma {:induction false} StepInSegment(n: nat, s: string, c: char)
    requires Reached(InSegment(n), s)
    ensures Reached(Step(InSegment(n), c), s + [c])
  {
    var j, k :| SegmentSplit(s, j, k) && (if n < 5 then |s| - k == n else |s| - k >= 5);
    if IsLabelChar(c) {
      SegmentAddChar(s, c, j, k);
    } else if c == '.' && n > 0 {
      SegmentAddDot(s, j, k);
    }
  }

  /** A label character extends the last segment. */
  lemma SegmentAddChar(s: string, c: char, j: int, k: int)
    requires SegmentSplit(s, j, k) && IsLabelChar(c)
    ensures SegmentSplit(s + [c], j, k)
  {
    var t := s + [c];
    assert t[..j] == s[..j];
    assert t[j + 1..k] == s[j + 1..k];
    assert t[k..] == s[k..] + [c];
  }

  /** A '.' after a non-empty last segment closes it as one more label. */
  lemma SegmentAddDot(s: string, j: int, k: int)
    requires SegmentSplit(s, j, k) && k < |s|
    ensures SegmentSplit(s + ['.'], j, |s| + 1)
  {
    var t := s + ['.'];
    var x := s[k..] + ['.'];
    assert t[..j] == s[..j];
    assert LabelDot(x) by { assert x[..|x| - 1] == s[k..]; }
    assert t[j + 1..|t|] == s[j + 1..k] + x;
    LabelsExtend(s[j + 1..k], x);
    assert t[|t|..] == [];
  }

  lemma {:induction false} RunReached(s: string)
    ensures Reached(Run(Start, s), s)
    decreases |s|
  {
    if s != [] {
      var p := s[..|s| - 1];
      RunReached(p);
      StepReached(Run(Start, p), p, s[|s| - 1]);
      assert p + [s[|s| - 1]] == s;
    }
  }

  lemma {:induction false} RecognizerSound(s: string)
    requires Accepting(Run(Start, s))
    ensures MatchesEmailPattern(s)
  {
    RunReached(s);
    var n := Run(Start, s).n;
    var j, k :| SegmentSplit(s, j, k) && |s| - k == n;
    var d := s[j + 1..];
    assert d[..k - j - 1] == s[j + 1..k];
    assert d[k - j - 1..] == s[k..];
    assert Domain(d);
  }

  lemma {:induction false} RunAppend(q: State, a: string, b: string)
    ensures Run(q, a + b) == Run(Run(q, a), b)
    decreases |b|
  {
    if b == [] {
      assert a + b == a;
    } else {
      var b' := b[..|b| - 1];
      RunAppend(q, a, b');
      assert (a + b)[..|a + b| - 1] == a + b';
    }
  }

  lemma {:induction false} RunLocalPart(s: string)
    requires LocalPart(s)
    ensures Run(Start, s) == InLocal
    decreases |s|
  {
    if |s| > 1 {
      var p := s[..|s| - 1];
      assert LocalPart(p) by {
        forall i | 0 <= i < |p| ensures IsLocalChar(p[i]) { assert p[i] == s[i]; }
      }
      RunLocalPart(p);
    } else {
      assert s[..0] == [];
    }
  }

  lemma {:induction false} RunLabelChars(q: State, s: string)
    requires q == InFirstLabel || (q.InSegment? && q.n <= 5)
    requires AllLabelChars(s)
    ensures q == InFirstLabel ==> Run(q, s) == InFirstLabel
    ensures q.InSegment? ==> Run(q, s) == InSegment(if q.n + |s| < 5 then q.n + |s| else 5)
    decreases |s|
  {
    if s != [] {
      var p := s[..|s| - 1];
      assert AllLabelChars(p) by {
        forall i | 0 <= i < |p| ensures IsLabelChar(p[i]) { assert p[i] == s[i]; }
      }
      RunLabelChars(q, p);
      assert IsLabelChar(s[|s| - 1]);
    }
  }

  /** Reading a label piece `x.` from the first label or a segment closes it. */
  lemma {:induction false} RunLabelDot(q: State, s: string)
    requires q == AfterAt || (q.InSegment? && q.n == 0)
    requires LabelDot(s)
    ensures Run(q, s) == InSegment(0)
  {
    var x := s[..|s| - 1];
    var rest := x[1..];
    assert AllLabelChars(rest) by {
      forall i | 0 <= i < |rest| ensures IsLabelChar(rest[i]) { assert rest[i] == x[i + 1]; }
    }
    assert [x[0]] + rest == x;
    assert Run(q, [x[0]]) == Step(q, x[0]) by { assert [x[0]][..0] == []; }
    RunAppend(q, [x[0]], rest);
    RunLabelChars(Step(q, x[0]), rest);
  }

  lemma {:induction false} RunLabels(s: string)
    requires Labels(s)
    ensures Run(AfterAt, s) == InSegment(0)
    decreases |s|
  {
    if LabelDot(s) {
      RunLabelDot(AfterAt, s);
    } else {
      var j :| 0 < j < |s| && Labels(s[..j]) && LabelDot(s[j..]);
      RunLabels(s[..j]);
      assert s[..j] + s[j..] == s;
      RunAppend(AfterAt, s[..j], s[j..]);
      RunLabelDot(InSegment(0), s[j..]);
    }
  }

  lemma {:induction false} RecognizerComplete(s: string)
    requires MatchesEmailPattern(s)
    ensures Accepting(Run(Start, s))
  {
    var j :| 0 < j < |s| && LocalPart(s[..j]) && s[j] == '@' && Domain(s[j + 1..]);
    RunSplit(Start, s, j + 1);
    RunUpToAt(s, j);
    RunDomain(s[j + 1..]);
  }

  /** Reading `s` is reading its first `i` characters, then the rest. */
  lemma RunSplit(q: State, s: string, i: int)
    requires 0 <= i <= |s|
    ensures Run(q, s) == Run(Run(q, s[..i]), s[i..])
  {
    assert s[..i] + s[i..] == s;
    RunAppend(q, s[..i], s[i..]);
  }

  /** A local part followed by '@' leads to `AfterAt`. */
  lemma RunUpToAt(s: string, j: int)
    requires 0 < j < |s| && LocalPart(s[..j]) && s[j] == '@'
    ensures Run(Start, s[..j + 1]) == AfterAt
  {
    var p := s[..j + 1];
    assert p[..|p| - 1] == s[..j];
    RunLocalPart(s[..j]);
  }

  /** From `AfterAt`, a string the domain part of the pattern matches ends in an accepting state. */
  lemma RunDomain(d: string)
    requires Domain(d)
    ensures Accepting(Run(AfterAt, d))
  {
    var k :| 0 < k < |d| && Labels(d[..k]) && TopLevel(d[k..]);
    RunSplit(AfterAt, d, k);
    RunLabels(d[..k]);
    RunLabelChars(InSegment(0), d[k..]);
  }
}
