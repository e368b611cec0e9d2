/** The regular-expression replacements the engine performs, as a small
    interpreter: a `Pattern` names one of the expressions the source uses,
    `MatchLen` says how long a match starting at a position is (0 for none),
    and `ReplaceAll` is `String.prototype.replace` with the `g` flag —
    a left-to-right scan that replaces every non-overlapping match. */
module Regex {
  import opened Strings

  datatype CharClass =
    | WhiteSpace                  // \s
    | Exactly(c: char)            // one literal character
    | NotLowerAlnumOrSpace        // [^a-z0-9\s]
    | NotLowerAlnum               // [^a-z0-9]

  predicate In(c: char, cls: CharClass) {
    match cls
    case WhiteSpace => IsSpace(c)
    case Exactly(d) => c == d
    case NotLowerAlnumOrSpace => !IsLowerAlnum(c) && !IsSpace(c)
    case NotLowerAlnum => !IsLowerAlnum(c)
  }

  /** Every character of class `a` is of class `b`. */
  predicate Within(a: CharClass, b: CharClass) {
    forall c :: In(c, a) ==> In(c, b)
  }

  datatype Pattern =
    | Single(cls: CharClass)              // one character of the class: [^a-z0-9\s], -
    | Run(cls: CharClass, min: nat)       // greedy run of at least `min`: \s+, --+, \n\n+
    | Word(w: string)                     // \bw\b
    | WordPair(a: string, b: string)      // \ba\s+b\b
    | SpacesThenWord(ws: seq<string>)     // \s+(w1|w2|...)\b

  /** Length of the longest run of class characters starting at `i`. */
  function RunLen(s: string, i: nat, cls: CharClass): (n: nat)
    requires i <= |s|
    ensures i + n <= |s|
    ensures forall k :: i <= k < i + n ==> In(s[k], cls)
    ensures i + n == |s| || !In(s[i + n], cls)
    decreases |s| - i
  {
    if i < |s| && In(s[i], cls) then 1 + RunLen(s, i + 1, cls) else 0
  }

  /** `\w` holds at position `j` (false outside the string). */
  predicate WordAt(s: string, j: int) {
    0 <= j < |s| && IsWordChar(s[j])
  }

  /** `\b` at position `i`: a word character on exactly one side. */
  predicate Boundary(s: string, i: int) {
    WordAt(s, i - 1) != WordAt(s, i)
  }

  /** `\bw\b` holds at `i`. */
  predicate WordAtPos(s: string, i: nat, w: string) {
    w != [] && Boundary(s, i) && StartsAt(s, i, w) && Boundary(s, i + |w|)
  }

  /** The first alternative of `ws` that occurs at `i` followed by `\b`;
      alternatives are tried in order, as in a regular expression. */
  function FirstWordAt(s: string, i: nat, ws: seq<string>): (r: nat)
    requires i <= |s|
    ensures i + r <= |s|
    ensures r > 0 ==> exists k :: 0 <= k < |ws| && |ws[k]| == r && StartsAt(s, i, ws[k])
  {
    if ws == [] then 0
    else if ws[0] != [] && StartsAt(s, i, ws[0]) && Boundary(s, i + |ws[0]|) then |ws[0]|
    else
      var r := FirstWordAt(s, i, ws[1..]);
      assert r > 0 ==> exists k :: 0 <= k < |ws[1..]| && |ws[1..][k]| == r && StartsAt(s, i, ws[1..][k]);
      r
  }

  /** Length of the match of `p` that starts at `i`, or 0 when there is none.
      The runs are greedy; for `WordPair` and `SpacesThenWord` the greedy run
      is the only one that can succeed, because the words that follow it
      begin with a letter. */
  function MatchLen(p: Pattern, s: string, i: nat): (n: nat)
    requires i <= |s|
    ensures i + n <= |s|
  {
    match p
    case Single(cls) => if i < |s| && In(s[i], cls) then 1 else 0
    case Run(cls, min) =>
      var n := RunLen(s, i, cls);
      if n >= min && n > 0 then n else 0
    case Word(w) => if WordAtPos(s, i, w) then |w| else 0
    case WordPair(a, b) =>
      if a != [] && b != [] && Boundary(s, i) && StartsAt(s, i, a) then
        var n := RunLen(s, i + |a|, WhiteSpace);
        if n > 0 && StartsAt(s, i + |a| + n, b) && Boundary(s, i + |a| + n + |b|)
        then |a| + n + |b| else 0
      else 0
    case SpacesThenWord(ws) =>
      var n := RunLen(s, i, WhiteSpace);
      if n > 0 then
        var k := FirstWordAt(s, i + n, ws);
        if k > 0 then n + k else 0
      else 0
  }

  /** The match lengths of `p` at every position of `s`. */
  function Matches(p: Pattern, s: string): (ms: seq<nat>)
    ensures |ms| == |s|
    ensures forall k :: 0 <= k < |s| ==> ms[k] == MatchLen(p, s, k) && k + ms[k] <= |s|
  {
    seq(|s|, k requires 0 <= k < |s| => MatchLen(p, s, k))
  }

  /** `ms` gives, for each position of `s`, the length of a match starting
      there (0 for none) that stays inside `s`. */
  predicate MatchTable(s: string, ms: seq<nat>) {
    |ms| == |s| && forall k :: 0 <= k < |s| ==> k + ms[k] <= |s|
  }

  /** The left-to-right scan of a global replacement from position `i`:
      at a match its text is replaced and the scan resumes after it,
      otherwise one character is copied. */
  function Scan(s: string, ms: seq<nat>, repl: string, i: nat): string
    requires MatchTable(s, ms) && i <= |s|
    decreases |s| - i
  {
    if i == |s| then ""
    else if ms[i] > 0 then repl + Scan(s, ms, repl, i + ms[i])
    else [s[i]] + Scan(s, ms, repl, i + 1)
  }

  /** The global replacement of `p`, scanning from position `i`. */
  function ReplaceFrom(p: Pattern, s: string, repl: string, i: nat): string
    requires i <= |s|
  {
    Scan(s, Matches(p, s), repl, i)
  }

  /** `s.replace(/p/g, repl)`. */
  function ReplaceAll(p: Pattern, s: string, repl: string): string {
    ReplaceFrom(p, s, repl, 0)
  }

  lemma {:induction false} ScanCopy(s: string, ms: seq<nat>, repl: string, i: nat, j: nat)
    requires MatchTable(s, ms) && i <= j <= |s|
    requires forall k :: i <= k < j ==> ms[k] == 0
    ensures Scan(s, ms, repl, i) == s[i..j] + Scan(s, ms, repl, j)
    decreases j - i
  {
    if i < j {
      var rest, tail := Scan(s, ms, repl, i + 1), Scan(s, ms, repl, j);
      assert Scan(s, ms, repl, i) == [s[i]] + rest;
      ScanCopy(s, ms, repl, i + 1, j);
      assert [s[i]] + (s[i + 1..j] + tail) == ([s[i]] + s[i + 1..j]) + tail;
      assert [s[i]] + s[i + 1..j] == s[i..j];
    }
  }

  /** A stretch with no match is copied unchanged. */
  lemma CopySegment(p: Pattern, s: string, repl: string, i: nat, j: nat)
    requires i <= j <= |s|
    requires forall k :: i <= k < j ==> MatchLen(p, s, k) == 0
    ensures ReplaceFrom(p, s, repl, i) == s[i..j] + ReplaceFrom(p, s, repl, j)
  {
    ScanCopy(s, Matches(p, s), repl, i, j);
  }

  /** With no match anywhere, the replacement is the identity. */
  lemma NoMatchIdentity(p: Pattern, s: string, repl: string)
    requires forall k :: 0 <= k < |s| ==> MatchLen(p, s, k) == 0
    ensures ReplaceAll(p, s, repl) == s
  {
    CopySegment(p, s, repl, 0, |s|);
  }

  lemma {:induction false} ScanKeeps(s: string, ms: seq<nat>, repl: string, i: nat, P: char -> bool)
    requires MatchTable(s, ms) && i <= |s|
    requires forall c :: c in repl ==> P(c)
    requires forall j :: i <= j < |s| && ms[j] == 0 ==> P(s[j])
    ensures forall c :: c in Scan(s, ms, repl, i) ==> P(c)
    decreases |s| - i
  {
    if i < |s| {
      var out := Scan(s, ms, repl, i);
      if ms[i] > 0 {
        var rest := Scan(s, ms, repl, i + ms[i]);
        ScanKeeps(s, ms, repl, i + ms[i], P);
        assert out == repl + rest;
        forall c | c in out ensures P(c) {
          assert c in repl || c in rest;
        }
      } else {
        var rest := Scan(s, ms, repl, i + 1);
        ScanKeeps(s, ms, repl, i + 1, P);
        assert out == [s[i]] + rest;
        forall c | c in out ensures P(c) {
          assert c == s[i] || c in rest;
        }
      }
    }
  }

  /** Every character of the output is a character of the replacement or an
      unmatched character of the input, so a property shared by both holds of
      the whole output. */
  lemma ReplaceKeeps(p: Pattern, s: string, repl: string, i: nat, P: char -> bool)
    requires i <= |s|
    requires forall c :: c in repl ==> P(c)
    requires forall j :: i <= j < |s| && MatchLen(p, s, j) == 0 ==> P(s[j])
    ensures forall c :: c in ReplaceFrom(p, s, repl, i) ==> P(c)
  {
    ScanKeeps(s, Matches(p, s), repl, i, P);
  }

  /** `n` consecutive copies of `c` start at `i`. */
  predicate RunAt(s: string, i: int, c: char, n: nat) {
    0 <= i && i + n <= |s| && forall k :: i <= k < i + n ==> s[k] == c
  }

  /** `s` holds no `n` consecutive copies of `c`. */
  predicate NoRun(s: string, c: char, n: nat) {
    forall i :: 0 <= i <= |s| ==> !RunAt(s, i, c, n)
  }

  lemma NoRunInfix(s: string, c: char, n: nat, a: nat, b: nat)
    requires a <= b <= |s|
    requires NoRun(s, c, n)
    ensures NoRun(s[a..b], c, n)
  {
    forall i | 0 <= i <= b - a
      ensures !RunAt(s[a..b], i, c, n)
    {
      if RunAt(s[a..b], i, c, n) {
        assert RunAt(s, a + i, c, n);
      }
    }
  }

  /** What a run-collapsing match table guarantees: a match is a run of `c`
      ended by a non-`c`, and an unmatched `c` is followed by a non-`c`. */
  predicate CollapseTable(s: string, ms: seq<nat>, c: char) {
    MatchTable(s, ms)
    && (forall k :: 0 <= k < |s| && ms[k] > 0 ==> s[k] == c && (k + ms[k] == |s| || s[k + ms[k]] != c))
    && (forall k :: 0 <= k < |s| && ms[k] == 0 && s[k] == c ==> k + 1 == |s| || s[k + 1] != c)
  }

  lemma {:induction false} ScanCollapse(c: char, s: string, ms: seq<nat>, repl: string, i: nat)
    requires CollapseTable(s, ms, c)
    requires |repl| >= 1 && i <= |s|
    ensures NoRun(Scan(s, ms, repl, i), c, |repl| + 1)
    ensures var out := Scan(s, ms, repl, i);
      out != [] && out[0] == c ==> i < |s| && s[i] == c
    decreases |s| - i
  {
    var len := |repl| + 1;
    if i < |s| {
      var out := Scan(s, ms, repl, i);
      // the output is `head` followed by the output from `next`
      var head, next := if ms[i] > 0 then repl else [s[i]], if ms[i] > 0 then i + ms[i] else i + 1;
      var rest := Scan(s, ms, repl, next);
      ScanCollapse(c, s, ms, repl, next);
      assert out == head + rest;
      // what follows a collapsed run, or a lone `c`, is not `c`
      assert head[|head| - 1] == c ==> rest == [] || rest[0] != c;
      forall j | 0 <= j <= |out|
        ensures !RunAt(out, j, c, len)
      {
        if j + len <= |out| {
          if j < |head| {
            if head[|head| - 1] == c {
              assert out[|head|] == rest[0] && out[|head|] != c;
              assert j <= |head| < j + len;
            } else {
              assert out[|head| - 1] != c;
            }
          } else {
            assert !RunAt(rest, j - |head|, c, len);
            var k :| j - |head| <= k < j - |head| + len && rest[k] != c;
            assert out[k + |head|] == rest[k];
          }
        }
      }
    }
  }

  /** Replacing every run of two or more `c` by `m` characters leaves no run
      of `m + 1` copies of `c`: `--+` -> `-` leaves no `--`, `\n\n+` -> `\n\n`
      leaves no three newlines in a row. */
  lemma CollapseRuns(c: char, s: string, repl: string, i: nat)
    requires |repl| >= 1 && i <= |s|
    ensures NoRun(ReplaceFrom(Run(Exactly(c), 2), s, repl, i), c, |repl| + 1)
  {
    var ms := Matches(Run(Exactly(c), 2), s);
    forall k | 0 <= k < |s| && ms[k] > 0
      ensures s[k] == c && (k + ms[k] == |s| || s[k + ms[k]] != c)
    {
      assert ms[k] == RunLen(s, k, Exactly(c));
    }
    forall k | 0 <= k < |s| && ms[k] == 0 && s[k] == c
      ensures k + 1 == |s| || s[k + 1] != c
    {
      var n := RunLen(s, k, Exactly(c));
      assert n == 1 + RunLen(s, k + 1, Exactly(c));
      assert n < 2;
      assert RunLen(s, k + 1, Exactly(c)) == 0;
    }
    assert CollapseTable(s, ms, c);
    ScanCollapse(c, s, ms, repl, i);
  }

  lemma {:induction false} ScanToItself(s: string, ms: seq<nat>, w: string, i: nat)
    requires MatchTable(s, ms) && i <= |s|
    requires forall k :: 0 <= k < |s| && ms[k] > 0 ==> s[k..k + ms[k]] == w
    ensures Scan(s, ms, w, i) == s[i..]
    decreases |s| - i
  {
    if i < |s| {
      var n := if ms[i] > 0 then ms[i] else 1;
      ScanToItself(s, ms, w, i + n);
      ScanToItselfStep(s, ms, w, i, n);
    }
  }

  /** One step of a scan that writes back what it matched. */
  lemma ScanToItselfStep(s: string, ms: seq<nat>, w: string, i: nat, n: nat)
    requires MatchTable(s, ms) && i < |s| && n == (if ms[i] > 0 then ms[i] else 1)
    requires ms[i] > 0 ==> s[i..i + ms[i]] == w
    requires Scan(s, ms, w, i + n) == s[i + n..]
    ensures Scan(s, ms, w, i) == s[i..]
  {
    var head := if ms[i] > 0 then w else [s[i]];
    assert Scan(s, ms, w, i) == head + Scan(s, ms, w, i + n);
    assert head == s[i..i + n];
    assert s[i..] == s[i..i + n] + s[i + n..];
  }

  /** Replacing a whole word by itself changes nothing (the
      `\bbless\b` -> `bless` rewrite). */
  lemma WordToItself(w: string, s: string)
    ensures ReplaceAll(Word(w), s, w) == s
  {
    ScanToItself(s, Matches(Word(w), s), w, 0);
  }

  /** Replacing every `c` by the single character `d` maps the string
      position by position (`querySlug.replace(/-/g, ' ')`). */
  lemma {:induction false} ScanChar(c: char, d: char, s: string, ms: seq<nat>, i: nat)
    requires MatchTable(s, ms) && i <= |s|
    requires forall k :: 0 <= k < |s| ==> ms[k] == if s[k] == c then 1 else 0
    ensures var r := Scan(s, ms, [d], i);
      |r| == |s| - i && forall k :: 0 <= k < |r| ==> r[k] == if s[i + k] == c then d else s[i + k]
    decreases |s| - i
  {
    if i < |s| {
      ScanChar(c, d, s, ms, i + 1);
      var rest := Scan(s, ms, [d], i + 1);
      var r := Scan(s, ms, [d], i);
      assert r == [if s[i] == c then d else s[i]] + rest;
      forall k | 0 <= k < |r| ensures r[k] == if s[i + k] == c then d else s[i + k] {
        if k > 0 {
          assert r[k] == rest[k - 1];
        }
      }
    }
  }

  lemma ReplaceChar(c: char, d: char, s: string)
    ensures var r := ReplaceAll(Single(Exactly(c)), s, [d]);
      |r| == |s| && forall k :: 0 <= k < |r| ==> r[k] == if s[k] == c then d else s[k]
  {
    ScanChar(c, d, s, Matches(Single(Exactly(c)), s), 0);
  }

  // What a replacement keeps

  /** `s` with the characters of class `cls` removed and the others kept in
      order. */
  function Drop(s: string, cls: CharClass): (r: string)
    ensures |r| <= |s|
  {
    if s == [] then [] else Keep(s[0], cls) + Drop(s[1..], cls)
  }

  /** One character, unless it is of class `cls`. */
  function Keep(c: char, cls: CharClass): string {
    if In(c, cls) then [] else [c]
  }

  lemma {:induction false} DropConcat(a: string, b: string, cls: CharClass)
    ensures Drop(a + b, cls) == Drop(a, cls) + Drop(b, cls)
  {
    if a == [] {
      assert a + b == b;
    } else {
      DropCons(a, b, cls);
      DropConcat(a[1..], b, cls);
      var h, x, y := Keep(a[0], cls), Drop(a[1..], cls), Drop(b, cls);
      assert h + (x + y) == (h + x) + y;
    }
  }

  lemma DropCons(a: string, b: string, cls: CharClass)
    requires a != []
    ensures Drop(a + b, cls) == Keep(a[0], cls) + Drop(a[1..] + b, cls)
  {
    assert (a + b)[0] == a[0] && (a + b)[1..] == a[1..] + b;
  }

  lemma {:induction false} DropAll(s: string, cls: CharClass)
    requires forall k :: 0 <= k < |s| ==> In(s[k], cls)
    ensures Drop(s, cls) == []
  {
    if s != [] {
      DropAll(s[1..], cls);
    }
  }

  lemma {:induction false} DropNone(s: string, cls: CharClass)
    requires forall k :: 0 <= k < |s| ==> !In(s[k], cls)
    ensures Drop(s, cls) == s
  {
    if s != [] {
      DropNone(s[1..], cls);
      assert [s[0]] + s[1..] == s;
    }
  }

  /** Every matched stretch consists of characters of class `cls`. */
  predicate MatchesWithin(s: string, ms: seq<nat>, cls: CharClass)
    requires MatchTable(s, ms)
  {
    forall k :: 0 <= k < |s| ==> AllIn(s, k, k + ms[k], cls)
  }

  /** Every character of `s[a..b]` is of class `cls`. */
  predicate AllIn(s: string, a: nat, b: nat, cls: CharClass)
    requires a <= b <= |s|
  {
    forall j :: a <= j < b ==> In(s[j], cls)
  }

  lemma {:induction false} ScanDrop(s: string, ms: seq<nat>, repl: string, i: nat, cls: CharClass)
    requires MatchTable(s, ms) && i <= |s|
    requires MatchesWithin(s, ms, cls)
    requires forall k :: 0 <= k < |repl| ==> In(repl[k], cls)
    ensures Drop(Scan(s, ms, repl, i), cls) == Drop(s[i..], cls)
    decreases |s| - i
  {
    if i == |s| {
      assert s[i..] == [];
    } else {
      var j := if ms[i] > 0 then i + ms[i] else i + 1;
      ScanDrop(s, ms, repl, j, cls);
      ScanDropStep(s, ms, repl, i, j, cls);
    }
  }

  /** One step of the scan from `i` to `j` keeps what it drops. */
  lemma ScanDropStep(s: string, ms: seq<nat>, repl: string, i: nat, j: nat, cls: CharClass)
    requires MatchTable(s, ms) && i < |s| && j == (if ms[i] > 0 then i + ms[i] else i + 1)
    requires MatchesWithin(s, ms, cls)
    requires forall k :: 0 <= k < |repl| ==> In(repl[k], cls)
    requires Drop(Scan(s, ms, repl, j), cls) == Drop(s[j..], cls)
    ensures Drop(Scan(s, ms, repl, i), cls) == Drop(s[i..], cls)
  {
    if ms[i] > 0 {
      assert AllIn(s, i, i + ms[i], cls);
      ScanDropMatch(s, ms, repl, i, cls);
    } else {
      ScanDropCopy(s, ms, repl, i, cls);
    }
  }

  /** A match and its replacement both vanish. */
  lemma ScanDropMatch(s: string, ms: seq<nat>, repl: string, i: nat, cls: CharClass)
    requires MatchTable(s, ms) && i < |s| && ms[i] > 0
    requires AllIn(s, i, i + ms[i], cls)
    requires forall k :: 0 <= k < |repl| ==> In(repl[k], cls)
    requires Drop(Scan(s, ms, repl, i + ms[i]), cls) == Drop(s[i + ms[i]..], cls)
    ensures Drop(Scan(s, ms, repl, i), cls) == Drop(s[i..], cls)
  {
    var rest := Scan(s, ms, repl, i + ms[i]);
    assert Scan(s, ms, repl, i) == repl + rest;
    DropConcat(repl, rest, cls);
    DropAll(repl, cls);
    DropMatched(s, i, ms[i], cls);
  }

  lemma DropMatched(s: string, i: nat, n: nat, cls: CharClass)
    requires i + n <= |s|
    requires AllIn(s, i, i + n, cls)
    ensures Drop(s[i..], cls) == Drop(s[i + n..], cls)
  {
    DropSplit(s, i, n, cls);
    var m := s[i..i + n];
    forall k | 0 <= k < |m| ensures In(m[k], cls) {
      assert m[k] == s[i + k];
    }
    DropAll(m, cls);
  }

  /** An unmatched character is copied, and kept or dropped alike. */
  lemma ScanDropCopy(s: string, ms: seq<nat>, repl: string, i: nat, cls: CharClass)
    requires MatchTable(s, ms) && i < |s| && ms[i] == 0
    requires Drop(Scan(s, ms, repl, i + 1), cls) == Drop(s[i + 1..], cls)
    ensures Drop(Scan(s, ms, repl, i), cls) == Drop(s[i..], cls)
  {
    var rest := Scan(s, ms, repl, i + 1);
    assert Scan(s, ms, repl, i) == [s[i]] + rest;
    DropConcat([s[i]], rest, cls);
    DropSplit(s, i, 1, cls);
    assert s[i..i + 1] == [s[i]];
  }

  lemma DropSplit(s: string, i: nat, n: nat, cls: CharClass)
    requires i + n <= |s|
    ensures Drop(s[i..], cls) == Drop(s[i..i + n], cls) + Drop(s[i + n..], cls)
  {
    assert s[i..] == s[i..i + n] + s[i + n..];
    DropConcat(s[i..i + n], s[i + n..], cls);
  }

  /** Replacing the matches of a one-class pattern by class characters
      leaves the characters outside the class as they were, in order. */
  lemma ReplaceDrop(p: Pattern, s: string, repl: string, cls: CharClass)
    requires (p.Single? || p.Run?) && Within(p.cls, cls)
    requires forall k :: 0 <= k < |repl| ==> In(repl[k], cls)
    ensures Drop(ReplaceAll(p, s, repl), cls) == Drop(s, cls)
  {
    var ms := Matches(p, s);
    forall k | 0 <= k < |s| ensures AllIn(s, k, k + ms[k], cls) {
      forall j | k <= j < k + ms[k] ensures In(s[j], cls) {
        assert In(s[j], p.cls);
      }
    }
    ScanDrop(s, ms, repl, 0, cls);
    assert s[0..] == s;
  }

  /** Trimming removes white space only. */
  lemma DropTrim(s: string, cls: CharClass)
    requires Within(WhiteSpace, cls)
    ensures Drop(Trim(s), cls) == Drop(s, cls)
  {
    var a, r := Leading(s), Trim(s);
    var front, back := s[..a], s[a + |r|..];
    assert s == front + r + back;
    DropConcat(front + r, back, cls);
    DropConcat(front, r, cls);
    forall k | 0 <= k < |front| ensures In(front[k], cls) {
      assert IsSpace(s[k]);
    }
    DropAll(front, cls);
    forall k | 0 <= k < |back| ensures In(back[k], cls) {
      assert back[k] == s[a + |r| + k];
      assert IsSpace(s[a + |r| + k]);
    }
    DropAll(back, cls);
  }
}
