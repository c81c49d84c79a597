/** The diagnostic pattern of dist/main.js and JavaScript's global, multiline scan with it:
      /^([^()]+)\((\d+),(\d+)\): (error|warning) (.+): (.+)$/gm
    `^` and `$` match at line boundaries, `[^()]` matches every character but a parenthesis
    (line breaks included), `.` matches every character but a line terminator, and the
    quantifiers are greedy. `MatchAt` is the match a backtracking engine reports when it
    tries one position, and `IsMatchAt` is the pattern's language; `MatchAt` is proved
    sound and complete against `IsMatchAt`. */
module DiagnosticPattern {
  import opened Wrappers
  import Decimal

  /** The line terminators of JavaScript regular expressions. */
  predicate IsLineTerminator(c: char) {
    c == '\n' || c == '\r' || c == '\U{2028}' || c == '\U{2029}'
  }

  /** The class `[^()]` of the path group. */
  predicate IsPathChar(c: char) {
    c != '(' && c != ')'
  }

  /** The class `.` of the rule and message groups. */
  predicate IsDotChar(c: char) {
    !IsLineTerminator(c)
  }

  /** `^` in multiline mode. */
  predicate IsLineStart(s: string, p: nat)
    requires p <= |s|
  {
    p == 0 || IsLineTerminator(s[p - 1])
  }

  /** `$` in multiline mode. */
  predicate IsLineEnd(s: string, e: nat)
    requires e <= |s|
  {
    e == |s| || IsLineTerminator(s[e])
  }

  predicate NoParens(t: string) {
    forall i :: 0 <= i < |t| ==> IsPathChar(t[i])
  }

  predicate SingleLine(t: string) {
    forall i :: 0 <= i < |t| ==> IsDotChar(t[i])
  }

  /** The literal `": "` occurs in t at index k. */
  predicate SeparatorAt(t: string, k: int) {
    0 <= k && k + 1 < |t| && t[k] == ':' && t[k + 1] == ' '
  }

  /** The literal `"): "` occurs in t at index c. */
  predicate CloseAt(t: string, c: nat) {
    c + 3 <= |t| && t[c] == ')' && t[c + 1] == ':' && t[c + 2] == ' '
  }

  /** The literal `"error "` occurs in t at index v. */
  predicate ErrorAt(t: string, v: nat) {
    v + 6 <= |t| && t[v] == 'e' && t[v + 1] == 'r' && t[v + 2] == 'r' && t[v + 3] == 'o'
    && t[v + 4] == 'r' && t[v + 5] == ' '
  }

  /** The literal `"warning "` occurs in t at index v. */
  predicate WarningAt(t: string, v: nat) {
    v + 8 <= |t| && t[v] == 'w' && t[v + 1] == 'a' && t[v + 2] == 'r' && t[v + 3] == 'n'
    && t[v + 4] == 'i' && t[v + 5] == 'n' && t[v + 6] == 'g' && t[v + 7] == ' '
  }

  /** No `": "` in t except, possibly, as its last two characters. */
  predicate NoInnerSeparator(t: string) {
    forall k :: 0 <= k < |t| - 2 ==> !SeparatorAt(t, k)
  }

  /** s holds the word w at index i. */
  predicate Spells(s: string, i: nat, w: string) {
    i + |w| <= |s| && forall j :: 0 <= j < |w| ==> s[i + j] == w[j]
  }

  /** The word s spells at i is the slice of s there. */
  lemma SpellsSlice(s: string, i: nat, w: string)
    requires Spells(s, i, w)
    ensures s[i..i + |w|] == w
  {
    forall j | 0 <= j < |w|
      ensures s[i..i + |w|][j] == w[j]
    {
    }
  }

  /** A slice of s is spelled where it is cut from. */
  lemma SliceSpells(s: string, i: nat, e: nat)
    requires i <= e <= |s|
    ensures Spells(s, i, s[i..e])
  {
  }

  /** One match: where it starts and ends in the scanned text, and its six captures. */
  datatype Match = Match(start: nat, end: nat, path: string, line: string, column: string,
                         severity: string, ruleId: string, message: string)

  /** The text the pattern's literals and the six captures spell out together. */
  function Spelled(m: Match): string {
    m.path + ("(" + (m.line + ("," + (m.column + ("): " + SpelledTail(m))))))
  }

  /** The part of `Spelled(m)` from the severity on. */
  function SpelledTail(m: Match): string {
    m.severity + (" " + (m.ruleId + (": " + m.message)))
  }

  /** What each group's sub-pattern demands of its capture. */
  predicate GroupsWellFormed(m: Match) {
    HeadWellFormed(m) && TailWellFormed(m)
  }

  /** What the groups `([^()]+)`, `(\d+)` and `(\d+)` accept. */
  predicate HeadWellFormed(m: Match) {
    |m.path| > 0 && NoParens(m.path)
    && |m.line| > 0 && Decimal.AllDigits(m.line)
    && |m.column| > 0 && Decimal.AllDigits(m.column)
  }

  /** What the groups `(error|warning)`, `(.+)` and `(.+)` accept. */
  predicate TailWellFormed(m: Match) {
    (m.severity == "error" || m.severity == "warning")
    && |m.ruleId| > 0 && SingleLine(m.ruleId)
    && |m.message| > 0 && SingleLine(m.message)
  }

  /** m is one way for the whole pattern to match s from index p to index m.end. */
  ghost predicate IsMatchAt(s: string, p: nat, m: Match) {
    m.start == p && p <= m.end <= |s|
    && IsLineStart(s, p) && IsLineEnd(s, m.end)
    && GroupsWellFormed(m)
    && m.end == p + |Spelled(m)| && Spells(s, p, Spelled(m))
  }

  /** Where the greedy `[^()]+` started at index i stops: the first parenthesis at or after
      i, or the end of s. */
  function PathEnd(s: string, i: nat): (f: nat)
    requires i <= |s|
    ensures i <= f <= |s|
    ensures f < |s| ==> !IsPathChar(s[f])
    decreases |s| - i
  {
    if i == |s| || !IsPathChar(s[i]) then i else PathEnd(s, i + 1)
  }

  /** Where the greedy `\d+` started at index i stops. */
  function DigitsEnd(s: string, i: nat): (d: nat)
    requires i <= |s|
    ensures i <= d <= |s|
    ensures d < |s| ==> !Decimal.IsDigit(s[d])
    decreases |s| - i
  {
    if i == |s| || !Decimal.IsDigit(s[i]) then i else DigitsEnd(s, i + 1)
  }

  /** Where the greedy `.+` started at index i stops: the end of the line. */
  function LineEnd(s: string, i: nat): (e: nat)
    requires i <= |s|
    ensures i <= e <= |s|
    ensures IsLineEnd(s, e)
    ensures i < e ==> IsDotChar(s[e - 1])
    decreases |s| - i
  {
    if i == |s| || !IsDotChar(s[i]) then i else LineEnd(s, i + 1)
  }

  /** The largest k with lo < k <= hi at which `": "` occurs: the split the greedy rule group
      settles on after backtracking. */
  function LastSeparator(s: string, lo: nat, hi: int): (r: Option<nat>)
    ensures r.Some? ==> lo < r.value <= hi && SeparatorAt(s, r.value)
    decreases hi - lo
  {
    if hi <= lo then None
    else if SeparatorAt(s, hi) then Some(hi)
    else LastSeparator(s, lo, hi - 1)
  }

  /** Every character the path scan passes over is a path character. */
  lemma {:induction false} PathEndRun(s: string, i: nat, f: nat)
    requires i <= |s| && f == PathEnd(s, i)
    ensures forall j :: i <= j < f ==> IsPathChar(s[j])
    decreases |s| - i
  {
    if i < |s| && IsPathChar(s[i]) {
      PathEndRun(s, i + 1, f);
    }
  }

  /** Every character the digit scan passes over is a digit. */
  lemma {:induction false} DigitsEndRun(s: string, i: nat, d: nat)
    requires i <= |s| && d == DigitsEnd(s, i)
    ensures forall j :: i <= j < d ==> Decimal.IsDigit(s[j])
    decreases |s| - i
  {
    if i < |s| && Decimal.IsDigit(s[i]) {
      DigitsEndRun(s, i + 1, d);
    }
  }

  /** Every character the line scan passes over is matched by `.`. */
  lemma {:induction false} LineEndRun(s: string, i: nat, e: nat)
    requires i <= |s| && e == LineEnd(s, i)
    ensures forall j :: i <= j < e ==> IsDotChar(s[j])
    decreases |s| - i
  {
    if i < |s| && IsDotChar(s[i]) {
      LineEndRun(s, i + 1, e);
    }
  }

  /** No separator lies in the searched range after the one found, and none at all when the
      search finds none. */
  lemma {:induction false} LastSeparatorIsLast(s: string, lo: nat, hi: int)
    ensures LastSeparator(s, lo, hi).Some? ==> forall k :: LastSeparator(s, lo, hi).value < k <= hi ==> !SeparatorAt(s, k)
    ensures LastSeparator(s, lo, hi).None? ==> forall k :: lo < k <= hi ==> !SeparatorAt(s, k)
    decreases hi - lo
  {
    if lo < hi && !SeparatorAt(s, hi) {
      LastSeparatorIsLast(s, lo, hi - 1);
    }
  }

  /** The group `(error|warning)` and the space after it, tried at index v: the word it
      captures, or "" when neither alternative is followed by a space. */
  function SeverityAt(s: string, v: nat): (w: string)
    ensures w == "" || w == "error" || w == "warning"
  {
    if ErrorAt(s, v) then "error" else if WarningAt(s, v) then "warning" else ""
  }

  /** The severity word the engine reads is there, followed by a space. */
  lemma SeverityAtSpells(s: string, v: nat)
    requires SeverityAt(s, v) != ""
    ensures Spells(s, v, SeverityAt(s, v)) && v + |SeverityAt(s, v)| < |s|
    ensures s[v + |SeverityAt(s, v)|] == ' '
  {
  }

  /** Where the engine cuts s when it matches: the `(` after the path is at f, the `,` after
      the line number at l, the `"): "` after the column at c; then come the severity word
      and a space, the rule id up to the separator `": "` at k, and the message up to the
      line end e. */
  datatype Cuts = Cuts(f: nat, l: nat, c: nat, severity: string, k: nat, e: nat)

  /** Where the rule id starts. */
  function RuleStart(x: Cuts): nat {
    x.c + 3 + |x.severity| + 1
  }

  /** The cuts lie in order inside s, after p, with room for a non-empty capture between
      each two of them. */
  predicate Ordered(s: string, p: nat, x: Cuts) {
    p < x.f && x.f + 1 < x.l && x.l + 1 < x.c && RuleStart(x) < x.k && x.k + 2 < x.e <= |s|
  }

  /** The match that cuts at p delimit. */
  function Cut(s: string, p: nat, x: Cuts): Match
    requires Ordered(s, p, x)
  {
    Match(p, x.e, s[p..x.f], s[x.f + 1..x.l], s[x.l + 1..x.c], x.severity,
          s[RuleStart(x)..x.k], s[x.k + 2..x.e])
  }

  /** The engine's attempt at index p: the match it reports there, or None. */
  function MatchAt(s: string, p: nat): (r: Option<Match>)
    requires p <= |s|
    ensures r.Some? ==> r.value.start == p < r.value.end <= |s|
    ensures r.Some? ==> IsLineEnd(s, r.value.end) && !IsLineStart(s, r.value.end)
  {
    match CutsAt(s, p)
    case None => None
    case Some(x) => Some(Cut(s, p, x))
  }

  /** Where the engine cuts s when it matches at p. This stage matches `^([^()]+)\(`; the
      greedy path group runs to the first parenthesis, and backtracking cannot help, as a
      shorter path is followed by a path character. */
  function CutsAt(s: string, p: nat): (r: Option<Cuts>)
    requires p <= |s|
    ensures r.Some? ==> Ordered(s, p, r.value)
    ensures r.Some? ==> IsLineEnd(s, r.value.e) && !IsLineStart(s, r.value.e)
  {
    if !IsLineStart(s, p) then None
    else
      var f := PathEnd(s, p);
      if f == p || f == |s| || s[f] != '(' then None
      else CoordinatesAt(s, p, f)
  }

  /** The stage `(\d+),(\d+)\): ` after the path, whose `(` is at index f. The digit groups
      are greedy and a shorter run is followed by a digit, so no backtracking helps. */
  function CoordinatesAt(s: string, p: nat, f: nat): (r: Option<Cuts>)
    requires p < f < |s|
    ensures r.Some? ==> Ordered(s, p, r.value) && r.value.f == f
    ensures r.Some? ==> IsLineEnd(s, r.value.e) && !IsLineStart(s, r.value.e)
  {
    var l := DigitsEnd(s, f + 1);
    if l == f + 1 || l == |s| || s[l] != ',' then None
    else
      var c := DigitsEnd(s, l + 1);
      if c == l + 1 || !CloseAt(s, c) then None
      else TailAt(s, p, f, l, c)
  }

  /** The stage `(error|warning) (.+): (.+)$` after the coordinates; `"): "` is at index c.
      The greedy rule group first takes the whole line and gives characters back until
      `": "` and a non-empty message follow it: it ends at the last separator that leaves
      a message. */
  function TailAt(s: string, p: nat, f: nat, l: nat, c: nat): (r: Option<Cuts>)
    requires p < f && f + 1 < l && l + 1 < c && c + 3 <= |s|
    ensures r.Some? ==> Ordered(s, p, r.value)
    ensures r.Some? ==> IsLineEnd(s, r.value.e) && !IsLineStart(s, r.value.e)
    ensures r.Some? ==> r.value.f == f && r.value.l == l && r.value.c == c
  {
    var severity := SeverityAt(s, c + 3);
    if severity == "" then None
    else
      var q := c + 3 + |severity| + 1;
      var e := LineEnd(s, q);
      match LastSeparator(s, q, e - 3)
      case None => None
      case Some(k) => Some(Cuts(f, l, c, severity, k, e))
  }

  /** Everything the engine has checked on its way to the cuts x at p. */
  predicate Fits(s: string, p: nat, x: Cuts) {
    Ordered(s, p, x) && HeadFits(s, p, x) && TailFits(s, x)
  }

  /** Up to `"): "`, the text between ordered cuts is what the pattern asks for there. */
  predicate HeadFits(s: string, p: nat, x: Cuts)
    requires Ordered(s, p, x)
  {
    IsLineStart(s, p)
    && (forall j :: p <= j < x.f ==> IsPathChar(s[j])) && s[x.f] == '('
    && (forall j :: x.f + 1 <= j < x.l ==> Decimal.IsDigit(s[j])) && s[x.l] == ','
    && (forall j :: x.l + 1 <= j < x.c ==> Decimal.IsDigit(s[j])) && CloseAt(s, x.c)
  }

  /** From the severity on, the text between ordered cuts is what the pattern asks for. */
  predicate TailFits(s: string, x: Cuts)
    requires x.c + 3 + |x.severity| < x.e <= |s|
  {
    x.severity == SeverityAt(s, x.c + 3) != ""
    && (forall j :: RuleStart(x) <= j < x.e ==> IsDotChar(s[j])) && SeparatorAt(s, x.k)
    && IsLineEnd(s, x.e)
  }

  /** What a successful tail stage has read. */
  lemma TailAtSound(s: string, p: nat, f: nat, l: nat, c: nat, x: Cuts)
    requires p < f && f + 1 < l && l + 1 < c && c + 3 <= |s|
    requires TailAt(s, p, f, l, c) == Some(x)
    ensures Ordered(s, p, x) && TailFits(s, x)
  {
    LineEndRun(s, RuleStart(x), x.e);
  }

  /** What a successful coordinates stage has read. */
  lemma CoordinatesAtSound(s: string, p: nat, f: nat, x: Cuts)
    requires p < f < |s| && CoordinatesAt(s, p, f) == Some(x)
    ensures x.l + 1 < x.c && s[x.l] == ',' && CloseAt(s, x.c)
    ensures forall j :: f + 1 <= j < x.l ==> Decimal.IsDigit(s[j])
    ensures forall j :: x.l + 1 <= j < x.c ==> Decimal.IsDigit(s[j])
    ensures TailAt(s, p, f, x.l, x.c) == Some(x)
  {
    var l := DigitsEnd(s, f + 1);
    var c := DigitsEnd(s, l + 1);
    DigitsEndRun(s, f + 1, l);
    DigitsEndRun(s, l + 1, c);
  }

  /** Every check the engine makes on the way to cuts holds of them. */
  lemma CutsAtSound(s: string, p: nat, x: Cuts)
    requires p <= |s| && CutsAt(s, p) == Some(x)
    ensures Fits(s, p, x)
  {
    var f := PathEnd(s, p);
    CoordinatesAtSound(s, p, f, x);
    assert HeadFits(s, p, x) by {
      PathEndRun(s, p, f);
    }
    TailAtSound(s, p, f, x.l, x.c, x);
  }

  /** A run of path characters is a path capture. */
  lemma PathSlice(s: string, i: nat, j: nat)
    requires i <= j <= |s| && forall x :: i <= x < j ==> IsPathChar(s[x])
    ensures NoParens(s[i..j])
  {
    forall x | 0 <= x < j - i
      ensures IsPathChar(s[i..j][x])
    {
      assert s[i..j][x] == s[i + x];
    }
  }

  /** A run of digits is a digit capture. */
  lemma DigitSlice(s: string, i: nat, j: nat)
    requires i <= j <= |s| && forall x :: i <= x < j ==> Decimal.IsDigit(s[x])
    ensures Decimal.AllDigits(s[i..j])
  {
    forall x | 0 <= x < j - i
      ensures Decimal.IsDigit(s[i..j][x])
    {
      assert s[i..j][x] == s[i + x];
    }
  }

  /** Any part of a run of non-terminators stays on one line. */
  lemma DotSlice(s: string, i: nat, j: nat, e: nat)
    requires i <= j <= e <= |s| && forall x :: i <= x < e ==> IsDotChar(s[x])
    ensures SingleLine(s[i..j])
  {
    forall x | 0 <= x < j - i
      ensures IsDotChar(s[i..j][x])
    {
      assert s[i..j][x] == s[i + x];
    }
  }


  /** The captures between fitting cuts are well formed. */
  lemma CutWellFormed(s: string, p: nat, x: Cuts)
    requires Fits(s, p, x)
    ensures GroupsWellFormed(Cut(s, p, x))
  {
    PathSlice(s, p, x.f);
    DigitSlice(s, x.f + 1, x.l);
    DigitSlice(s, x.l + 1, x.c);
    DotSlice(s, RuleStart(x), x.k, x.e);
    DotSlice(s, x.k + 2, x.e, x.e);
  }

  /** From the severity on, fitting cuts delimit the text the tail of the pattern spells. */
  lemma TailSpelled(s: string, v: nat, q: nat, k: nat, e: nat, m: Match)
    requires q == v + |m.severity| + 1 && q < k && k + 2 < e <= |s|
    requires SeverityAt(s, v) == m.severity != "" && SeparatorAt(s, k)
    requires m.ruleId == s[q..k] && m.message == s[k + 2..e]
    ensures Spells(s, v, SpelledTail(m)) && v + |SpelledTail(m)| == e
  {
    SeverityAtSpells(s, v);
    SliceSpells(s, q, k);
    SliceSpells(s, k + 2, e);
    assert Spells(s, q - 1, " ");
    assert Spells(s, k, ": ");
    SpellsFive(s, v, m.severity, " ", m.ruleId, ": ", m.message);
  }

  /** Up to `"): "`, fitting cuts delimit the text the head of the pattern spells. */
  lemma HeadSpelled(s: string, p: nat, f: nat, l: nat, c: nat, m: Match)
    requires p < f && f + 1 < l && l + 1 < c && c + 3 <= |s|
    requires s[f] == '(' && s[l] == ',' && CloseAt(s, c)
    requires m.path == s[p..f] && m.line == s[f + 1..l] && m.column == s[l + 1..c]
    requires Spells(s, c + 3, SpelledTail(m))
    ensures Spells(s, p, Spelled(m))
  {
    SliceSpells(s, p, f);
    SliceSpells(s, f + 1, l);
    SliceSpells(s, l + 1, c);
    assert Spells(s, f, "(");
    assert Spells(s, l, ",");
    assert Spells(s, c, "): ");
    SpellsConcat(s, c, "): ", SpelledTail(m));
    SpellsConcat(s, l + 1, m.column, "): " + SpelledTail(m));
    SpellsFive(s, p, m.path, "(", m.line, ",", m.column + ("): " + SpelledTail(m)));
  }

  /** Fitting cuts delimit exactly the text their match spells. */
  lemma CutSpelled(s: string, p: nat, x: Cuts)
    requires Fits(s, p, x)
    ensures Spells(s, p, Spelled(Cut(s, p, x))) && p + |Spelled(Cut(s, p, x))| == x.e
  {
    var m := Cut(s, p, x);
    TailSpelled(s, x.c + 3, RuleStart(x), x.k, x.e, m);
    HeadSpelled(s, p, x.f, x.l, x.c, m);
  }

  /** The tail of a match, from its severity on, is well formed, spelled at v and ends at
      a line end. */
  ghost predicate TailPlaced(s: string, v: nat, m: Match) {
    TailWellFormed(m) && Spells(s, v, SpelledTail(m)) && m.end == v + |SpelledTail(m)|
    && IsLineEnd(s, m.end)
  }

  /** Fitting cuts delimit a match of the pattern. */
  lemma CutSound(s: string, p: nat, x: Cuts)
    requires Fits(s, p, x)
    ensures IsMatchAt(s, p, Cut(s, p, x))
  {
    CutWellFormed(s, p, x);
    CutSpelled(s, p, x);
  }

  /** Every match the engine reports is a match of the pattern. */
  lemma MatchAtSound(s: string, p: nat, m: Match)
    requires p <= |s| && MatchAt(s, p) == Some(m)
    ensures IsMatchAt(s, p, m)
  {
    var x := CutsAt(s, p).value;
    CutsAtSound(s, p, x);
    CutSound(s, p, x);
  }

  /** Two words side by side spell their concatenation. */
  lemma SpellsConcat(s: string, i: nat, a: string, b: string)
    requires Spells(s, i, a) && Spells(s, i + |a|, b)
    ensures Spells(s, i, a + b)
  {
    forall j | 0 <= j < |a + b|
      ensures s[i + j] == (a + b)[j]
    {
      if j >= |a| {
        assert s[i + |a| + (j - |a|)] == b[j - |a|];
      }
    }
  }

  /** Five words side by side spell their concatenation. */
  lemma SpellsFive(s: string, i: nat, a: string, b: string, c: string, d: string, e: string)
    requires Spells(s, i, a) && Spells(s, i + |a|, b) && Spells(s, i + |a| + |b|, c)
    requires Spells(s, i + |a| + |b| + |c|, d) && Spells(s, i + |a| + |b| + |c| + |d|, e)
    ensures Spells(s, i, a + (b + (c + (d + e))))
  {
    SpellsConcat(s, i + |a| + |b| + |c|, d, e);
    SpellsConcat(s, i + |a| + |b|, c, d + e);
    SpellsConcat(s, i + |a|, b, c + (d + e));
    SpellsConcat(s, i, a, b + (c + (d + e)));
  }

  /** A word that is a concatenation splits into its two parts. */
  lemma SpellsSplit(s: string, i: nat, a: string, b: string)
    requires Spells(s, i, a + b)
    ensures Spells(s, i, a) && Spells(s, i + |a|, b)
  {
    forall j | 0 <= j < |a|
      ensures s[i + j] == a[j]
    {
      assert (a + b)[j] == a[j];
    }
    forall j | 0 <= j < |b|
      ensures s[i + |a| + j] == b[j]
    {
      assert (a + b)[|a| + j] == b[j];
    }
  }

  /** Five words that s spells together, each where the previous one ends. */
  lemma SplitFive(s: string, i: nat, a: string, b: string, c: string, d: string, e: string)
    requires Spells(s, i, a + (b + (c + (d + e))))
    ensures Spells(s, i, a) && Spells(s, i + |a|, b) && Spells(s, i + |a| + |b|, c)
    ensures Spells(s, i + |a| + |b| + |c|, d) && Spells(s, i + |a| + |b| + |c| + |d|, e)
  {
    SpellsSplit(s, i, a, b + (c + (d + e)));
    SpellsSplit(s, i + |a|, b, c + (d + e));
    SpellsSplit(s, i + |a| + |b|, c, d + e);
    SpellsSplit(s, i + |a| + |b| + |c|, d, e);
  }

  /** The engine's choice r at some index agrees with a match m of the pattern there on every
      capture but the split between rule id and message, and its rule id is at least as
      long: the greedy rule group prefers the longest rule id. */
  predicate ChosenOver(r: Match, m: Match) {
    r.start == m.start && r.end == m.end
    && r.path == m.path && r.line == m.line && r.column == m.column && r.severity == m.severity
    && |m.ruleId| <= |r.ruleId|
    && r.ruleId + (": " + r.message) == m.ruleId + (": " + m.message)
  }

  /** On a line that holds a rule id, `": "` and a message, the greedy `.+` runs to the line
      end and the last separator before a non-empty message is at or after the rule id's. */
  lemma RuleMessageComplete(s: string, q: nat, e: nat, rule: string, msg: string)
    requires |rule| > 0 && SingleLine(rule) && |msg| > 0 && SingleLine(msg)
    requires Spells(s, q, rule + (": " + msg)) && e == q + |rule| + 2 + |msg|
    requires IsLineEnd(s, e)
    ensures LineEnd(s, q) == e
    ensures s[q..e] == rule + (": " + msg)
    ensures LastSeparator(s, q, e - 3).Some?
    ensures q + |rule| <= LastSeparator(s, q, e - 3).value
  {
    var tail := rule + (": " + msg);
    assert SingleLine(tail) by {
      forall j | 0 <= j < |tail| ensures IsDotChar(tail[j]) {
        if j < |rule| {
          assert tail[j] == rule[j];
        } else if j >= |rule| + 2 {
          assert tail[j] == msg[j - |rule| - 2];
        }
      }
    }
    assert forall j :: q <= j < e ==> s[j] == tail[j - q];
    assert forall j :: q <= j < e ==> IsDotChar(s[j]);
    LineEndRun(s, q, LineEnd(s, q));
    LastSeparatorIsLast(s, q, e - 3);
    assert SeparatorAt(s, q + |rule|) by {
      assert tail[|rule|] == ':' && tail[|rule| + 1] == ' ';
    }
  }

  /** The captures the engine takes at index q, where the rule id starts, and up to the line
      end e, split at the separator k, join again into the text between q and e. */
  lemma RuleMessageJoin(s: string, q: nat, k: nat, e: nat)
    requires q <= k && k + 2 <= e <= |s| && SeparatorAt(s, k)
    ensures s[q..e] == s[q..k] + (": " + s[k + 2..e])
  {
    assert s[k..k + 2] == ": ";
    assert s[q..e] == s[q..k] + (s[k..k + 2] + s[k + 2..e]);
  }

  /** Where the tail of a match starts, the engine reads the match's severity. */
  lemma SeverityScan(s: string, v: nat, m: Match)
    requires m.severity == "error" || m.severity == "warning"
    requires Spells(s, v, SpelledTail(m))
    ensures SeverityAt(s, v) == m.severity
  {
    SplitFive(s, v, m.severity, " ", m.ruleId, ": ", m.message);
    SeverityWord(s, v, m.severity);
  }

  /** A severity word followed by a space is read as that severity. */
  lemma SeverityWord(s: string, v: nat, w: string)
    requires w == "error" || w == "warning"
    requires Spells(s, v, w) && Spells(s, v + |w|, " ")
    ensures SeverityAt(s, v) == w
  {
    assert s[v + |w| + 0] == " "[0];
    assert s[v + 0] == w[0] && s[v + 1] == w[1] && s[v + 2] == w[2] && s[v + 3] == w[3];
    assert s[v + 4] == w[4];
    if w == "warning" {
      assert s[v + 5] == w[5] && s[v + 6] == w[6];
    }
  }

  lemma RuleMessageSpells(s: string, v: nat, q: nat, m: Match)
    requires Spells(s, v, SpelledTail(m)) && m.end == v + |SpelledTail(m)|
    requires q == v + |m.severity| + 1
    ensures Spells(s, q, m.ruleId + (": " + m.message))
    ensures m.end == q + |m.ruleId| + 2 + |m.message|
  {
    SplitFive(s, v, m.severity, " ", m.ruleId, ": ", m.message);
    SpellsConcat(s, q + |m.ruleId|, ": ", m.message);
    SpellsConcat(s, q, m.ruleId, ": " + m.message);
  }

  /** Where the tail of a match of the pattern starts at index v, the engine reads its
      severity, finds its line end and picks a separator no earlier than the one that ends
      its rule id, which splits the same text into rule id and message. */
  lemma TailComplete(s: string, v: nat, q: nat, m: Match) returns (k: nat)
    requires TailPlaced(s, v, m) && q == v + |m.severity| + 1
    ensures SeverityAt(s, v) == m.severity
    ensures q <= |s| && LineEnd(s, q) == m.end
    ensures LastSeparator(s, q, m.end - 3) == Some(k)
    ensures q + |m.ruleId| <= k
    ensures s[q..k] + (": " + s[k + 2..m.end]) == m.ruleId + (": " + m.message)
  {
    assert SeverityAt(s, v) == m.severity by {
      SeverityScan(s, v, m);
    }
    RuleMessageSpells(s, v, q, m);
    RuleMessageComplete(s, q, m.end, m.ruleId, m.message);
    k := LastSeparator(s, q, m.end - 3).value;
    RuleMessageJoin(s, q, k, m.end);
  }


  /** The path scan stops exactly at the first character after a run of path characters. */
  lemma PathScan(s: string, i: nat, f: nat, w: string)
    requires Spells(s, i, w) && f == i + |w| < |s| && NoParens(w) && !IsPathChar(s[f])
    ensures PathEnd(s, i) == f
  {
    assert forall j :: i <= j < f ==> s[j] == w[j - i];
    PathEndRun(s, i, PathEnd(s, i));
  }

  /** The digit scan stops exactly at the first character after a run of digits. */
  lemma DigitScan(s: string, i: nat, d: nat, w: string)
    requires Spells(s, i, w) && d == i + |w| < |s| && Decimal.AllDigits(w) && !Decimal.IsDigit(s[d])
    ensures DigitsEnd(s, i) == d
  {
    assert forall j :: i <= j < d ==> s[j] == w[j - i];
    DigitsEndRun(s, i, DigitsEnd(s, i));
  }


  /** The path, the `(`, the line, the `,` and the rest of a match of the pattern. */
  lemma HeadParts(s: string, p: nat, f: nat, l: nat, m: Match)
    requires Spells(s, p, Spelled(m)) && f == p + |m.path| && l == f + 1 + |m.line|
    ensures Spells(s, p, m.path) && f < |s| && s[f] == '(' && Spells(s, f + 1, m.line)
    ensures l < |s| && s[l] == ',' && Spells(s, l + 1, m.column + ("): " + SpelledTail(m)))
  {
    SplitFive(s, p, m.path, "(", m.line, ",", m.column + ("): " + SpelledTail(m)));
    assert s[f + 0] == "("[0];
    assert s[l + 0] == ","[0];
  }

  /** The column, the `"): "` and the tail of a match of the pattern. */
  lemma ColumnParts(s: string, l: nat, c: nat, m: Match)
    requires Spells(s, l + 1, m.column + ("): " + SpelledTail(m))) && c == l + 1 + |m.column|
    ensures Spells(s, l + 1, m.column) && CloseAt(s, c) && Spells(s, c + 3, SpelledTail(m))
  {
    SpellsSplit(s, l + 1, m.column, "): " + SpelledTail(m));
    SpellsSplit(s, c, "): ", SpelledTail(m));
    assert s[c + 0] == "): "[0] && s[c + 1] == "): "[1] && s[c + 2] == "): "[2];
  }

  /** The facts about a match of the pattern that the engine's stages inspect, with the
      indices of `(`, `,` and `"): "` after the path, the line and the column. */
  lemma MatchLayout(s: string, p: nat, m: Match) returns (f: nat, l: nat, c: nat)
    requires IsMatchAt(s, p, m)
    ensures f == p + |m.path| && l == f + 1 + |m.line| && c == l + 1 + |m.column|
    ensures p < f && f + 1 < l && l + 1 < c && c + 3 <= |s|
    ensures Spells(s, p, m.path) && s[f] == '(' && Spells(s, f + 1, m.line) && s[l] == ','
    ensures Spells(s, l + 1, m.column) && CloseAt(s, c)
    ensures Spells(s, c + 3, SpelledTail(m)) && m.end == c + 3 + |SpelledTail(m)|
  {
    f := p + |m.path|;
    l := f + 1 + |m.line|;
    c := l + 1 + |m.column|;
    HeadParts(s, p, f, l, m);
    ColumnParts(s, l, c, m);
  }

  /** The tail stage's cuts once the severity, the line end and the separator are known. */
  lemma TailAtFold(s: string, p: nat, f: nat, l: nat, c: nat, severity: string, q: nat, k: nat, e: nat)
    requires p < f && f + 1 < l && l + 1 < c && c + 3 <= |s|
    requires SeverityAt(s, c + 3) == severity != "" && q == c + 3 + |severity| + 1
    requires q <= |s| && LineEnd(s, q) == e && LastSeparator(s, q, e - 3) == Some(k)
    ensures TailAt(s, p, f, l, c) == Some(Cuts(f, l, c, severity, k, e))
  {
  }

  /** The coordinates stage passes on to the tail stage once the digit runs are known. */
  lemma CoordinatesAtFold(s: string, p: nat, f: nat, l: nat, c: nat)
    requires p < f && f + 1 < l && l + 1 < c && c + 3 <= |s| && s[l] == ',' && CloseAt(s, c)
    requires DigitsEnd(s, f + 1) == l && DigitsEnd(s, l + 1) == c
    ensures CoordinatesAt(s, p, f) == TailAt(s, p, f, l, c)
  {
  }

  /** The first stage passes on to the coordinates stage once the path run is known. */
  lemma CutsAtFold(s: string, p: nat, f: nat)
    requires p < f < |s| && IsLineStart(s, p) && PathEnd(s, p) == f && s[f] == '('
    ensures CutsAt(s, p) == CoordinatesAt(s, p, f)
  {
  }

  /** Where the tail of a match of the pattern follows `"): "` at c, the tail stage reads
      its severity, runs to its line end and splits at a separator no earlier than the
      match's, into the same text. */
  lemma TailCutsComplete(s: string, p: nat, f: nat, l: nat, c: nat, q: nat, m: Match) returns (k: nat)
    requires p < f && f + 1 < l && l + 1 < c && c + 3 <= |s| && TailPlaced(s, c + 3, m)
    requires q == c + 3 + |m.severity| + 1
    ensures TailAt(s, p, f, l, c) == Some(Cuts(f, l, c, m.severity, k, m.end))
    ensures q + |m.ruleId| <= k
    ensures s[q..k] + (": " + s[k + 2..m.end]) == m.ruleId + (": " + m.message)
  {
    k := TailComplete(s, c + 3, q, m);
    TailAtFold(s, p, f, l, c, m.severity, q, k, m.end);
  }

  /** Wherever the pattern matches, the engine cuts s at the match's own literals, reads its
      severity, and splits at a separator no earlier than the match's, into the same text. */
  lemma CutsAtComplete(s: string, p: nat, m: Match) returns (x: Cuts)
    requires IsMatchAt(s, p, m)
    ensures CutsAt(s, p) == Some(x) && ChosenOver(Cut(s, p, x), m)
  {
    var f, l, c := MatchLayout(s, p, m);
    PathScan(s, p, f, m.path);
    DigitScan(s, f + 1, l, m.line);
    DigitScan(s, l + 1, c, m.column);
    CoordinatesAtFold(s, p, f, l, c);
    CutsAtFold(s, p, f);
    var q := c + 3 + |m.severity| + 1;
    var k := TailCutsComplete(s, p, f, l, c, q, m);
    x := Cuts(f, l, c, m.severity, k, m.end);
    CutChosen(s, p, f, l, c, q, k, m);
  }

  /** The match the engine cuts agrees with m as `ChosenOver` demands. */
  lemma CutChosen(s: string, p: nat, f: nat, l: nat, c: nat, q: nat, k: nat, m: Match)
    requires Ordered(s, p, Cuts(f, l, c, m.severity, k, m.end)) && m.start == p
    requires Spells(s, p, m.path) && f == p + |m.path|
    requires Spells(s, f + 1, m.line) && l == f + 1 + |m.line|
    requires Spells(s, l + 1, m.column) && c == l + 1 + |m.column|
    requires q == c + 3 + |m.severity| + 1 && q + |m.ruleId| <= k
    requires s[q..k] + (": " + s[k + 2..m.end]) == m.ruleId + (": " + m.message)
    ensures ChosenOver(Cut(s, p, Cuts(f, l, c, m.severity, k, m.end)), m)
  {
    SpellsSlice(s, p, m.path);
    SpellsSlice(s, f + 1, m.line);
    SpellsSlice(s, l + 1, m.column);
  }

  /** Wherever the pattern matches, the engine reports a match at that index that agrees with
      it on every capture but, possibly, on where the rule id ends. */
  lemma MatchAtComplete(s: string, p: nat, m: Match) returns (r: Match)
    requires IsMatchAt(s, p, m)
    ensures MatchAt(s, p) == Some(r) && ChosenOver(r, m)
  {
    var x := CutsAtComplete(s, p, m);
    r := Cut(s, p, x);
  }

  /** When the message has no `": "` of its own, the greedy split can only fall where the
      match's does, and the two agree entirely. */
  lemma ChosenExact(r: Match, m: Match)
    requires ChosenOver(r, m) && |r.message| > 0 && NoInnerSeparator(m.message)
    ensures r == m
  {
    var t := m.ruleId + (": " + m.message);
    var n := |m.ruleId|;
    var d := |r.ruleId| - n;
    assert t == r.ruleId + (": " + r.message);
    assert |r.message| == |m.message| - d;
    if d >= 2 {
      assert m.message[d - 2] == t[|r.ruleId|] == ':';
      assert m.message[d - 1] == t[|r.ruleId| + 1] == ' ';
      assert SeparatorAt(m.message, d - 2);
    }
    assert d == 0;
    assert r.ruleId == t[..n] == m.ruleId;
    assert r.message == t[n + 2..] == m.message;
  }

  /** Moving the split to a `": "` inside the message keeps the joined text and leaves a
      longer rule id and a non-empty message, both single lines. */
  lemma Resplit(rule: string, msg: string, j: nat)
    requires SingleLine(rule) && SingleLine(msg) && j < |msg| - 2 && SeparatorAt(msg, j)
    ensures rule + (": " + msg) == (rule + (": " + msg[..j])) + (": " + msg[j + 2..])
    ensures SingleLine(rule + (": " + msg[..j])) && SingleLine(msg[j + 2..])
    ensures |msg[j + 2..]| > 0
  {
    assert msg == msg[..j] + (": " + msg[j + 2..]);
    var longer := rule + (": " + msg[..j]);
    forall i | 0 <= i < |longer|
      ensures IsDotChar(longer[i])
    {
      if i >= |rule| + 2 {
        assert longer[i] == msg[i - |rule| - 2];
      }
    }
  }

  /** Splitting the same text after the severity differently, into a well-formed rule id
      and message, gives another match of the pattern. */
  lemma RetailedMatch(s: string, p: nat, r: Match, m: Match)
    requires IsMatchAt(s, p, r) && TailWellFormed(m)
    requires m == r.(ruleId := m.ruleId, message := m.message)
    requires m.ruleId + (": " + m.message) == r.ruleId + (": " + r.message)
    ensures IsMatchAt(s, p, m)
  {
    assert SpelledTail(m) == SpelledTail(r);
    assert Spelled(m) == Spelled(r);
  }

  /** The engine splits rule id and message at the last `": "` of the line: its message
      holds no `": "` but possibly as its last two characters. */
  lemma MatchAtLastSeparator(s: string, p: nat, r: Match)
    requires p <= |s| && MatchAt(s, p) == Some(r)
    ensures NoInnerSeparator(r.message)
  {
    MatchAtSound(s, p, r);
    if j :| 0 <= j < |r.message| - 2 && SeparatorAt(r.message, j) {
      Resplit(r.ruleId, r.message, j);
      var m := r.(ruleId := r.ruleId + (": " + r.message[..j]), message := r.message[j + 2..]);
      RetailedMatch(s, p, r, m);
      var r' := MatchAtComplete(s, p, m);
      assert false;
    }
  }

  /** Where the pattern matches with a message free of `": "`, the engine reports exactly
      that match. */
  lemma MatchAtExact(s: string, p: nat, m: Match)
    requires IsMatchAt(s, p, m) && NoInnerSeparator(m.message)
    ensures MatchAt(s, p) == Some(m)
  {
    var r := MatchAtComplete(s, p, m);
    MatchAtSound(s, p, r);
    ChosenExact(r, m);
  }
}

