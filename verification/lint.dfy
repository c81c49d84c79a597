/** The `lint` step of dist/main.js: every diagnostic the global scan finds in a chunk of
    compiler output becomes a check-run annotation, and the number of annotations decides
    the conclusion and the summary of the run. */
module Lint {
  import opened Wrappers
  import opened DiagnosticPattern
  import Decimal
  import MatchAll

  /** The name the action reports under, and the fallback title of an annotation. */
  const ActionName := "TSC"

  /** One annotation record as it is handed to the check-run update. */
  datatype Annotation = Annotation(path: string, startLine: nat, endLine: nat,
                                   startColumn: nat, endColumn: nat, level: string,
                                   title: string, message: string)

  datatype Output = Output(title: string, summary: string, annotations: seq<Annotation>)

  /** The `{conclusion, output}` record `lint` returns. */
  datatype LintResult = LintResult(conclusion: string, output: Output)

  /** The annotation built from one match: both ends of the range come from the same
      `parseInt` of the line and of the column, an `error` becomes a `failure`, and the
      title falls back to the action name when the rule id is empty. */
  function ToAnnotation(m: Match): (a: Annotation)
    requires GroupsWellFormed(m)
    ensures a.path == m.path && a.message == m.message
    ensures a.startLine == a.endLine && a.startColumn == a.endColumn
    ensures a.level == "failure" <==> m.severity == "error"
    ensures a.level == "warning" <==> m.severity == "warning"
    ensures a.title == m.ruleId
  {
    var line := Decimal.Value(m.line);
    var column := Decimal.Value(m.column);
    Annotation(m.path, line, line, column, column,
               if m.severity == "error" then "failure" else "warning",
               if |m.ruleId| > 0 then m.ruleId else ActionName,
               m.message)
  }

  /** The matches the scan yields from index i on are matches of the pattern. */
  lemma MatchesWellFormed(s: string, i: nat)
    requires i <= |s|
    ensures forall k :: 0 <= k < |MatchAll.MatchesFrom(s, i)| ==>
      GroupsWellFormed(MatchAll.MatchesFrom(s, i)[k])
  {
    MatchAll.MatchesFromSound(s, i);
  }

  /** The annotations of the matches the scan yields from index i on, in scan order. */
  function AnnotationsFrom(s: string, i: nat): (anns: seq<Annotation>)
    requires i <= |s|
    ensures |anns| == |MatchAll.MatchesFrom(s, i)|
  {
    var ms := MatchAll.MatchesFrom(s, i);
    MatchesWellFormed(s, i);
    seq(|ms|, k requires 0 <= k < |ms| => ToAnnotation(ms[k]))
  }

  /** The annotations `lint` collects from a chunk of output. */
  function Annotations(s: string): (anns: seq<Annotation>)
    ensures |anns| == |MatchAll.Matches(s)| <= |s|
  {
    AnnotationsFrom(s, 0)
  }

  /** The record `lint` returns for the annotations it collected. */
  function Conclude(annotations: seq<Annotation>): (r: LintResult)
    ensures r.output.annotations == annotations && r.output.title == ActionName
    ensures r.conclusion == "success" <==> |annotations| > 0
    ensures r.conclusion == "failure" <==> |annotations| == 0
    ensures r.output.summary == "Green lights" <==> |annotations| > 0
    ensures r.output.summary == "TSC error" <==> |annotations| == 0
  {
    LintResult(if |annotations| > 0 then "success" else "failure",
               Output(ActionName, if |annotations| > 0 then "Green lights" else "TSC error",
                      annotations))
  }

  /** `lint`: one annotation per match of the scan, pushed in scan order. */
  method Lint(data: string) returns (r: LintResult)
    ensures |r.output.annotations| == |MatchAll.Matches(data)|
    ensures r == Conclude(Annotations(data))
  {
    var results := MatchAll.Matches(data);
    MatchesWellFormed(data, 0);
    ghost var expected := Annotations(data);
    var annotations: seq<Annotation> := [];
    for i := 0 to |results|
      invariant annotations == expected[..i]
    {
      assert expected[..i + 1] == expected[..i] + [expected[i]];
      assert expected[i] == ToAnnotation(results[i]);
      annotations := annotations + [ToAnnotation(results[i])];
    }
    assert annotations == expected;
    r := Conclude(annotations);
  }

  /** What an annotation records about the match it comes from: the path runs from the
      match's start to the first parenthesis after it, and may cross line breaks; line and
      column are the decimal values of their digits; the title is the non-empty rule id, so
      the fallback to the action name never applies. */
  lemma MatchAnnotation(s: string, p: nat, m: Match)
    requires IsMatchAt(s, p, m)
    ensures var a := ToAnnotation(m);
      && a.path == m.path && |a.path| > 0 && NoParens(a.path)
      && p + |a.path| < |s| && PathEnd(s, p) == p + |a.path| && s[p + |a.path|] == '('
      && |m.line| > 0 && Decimal.AllDigits(m.line)
      && a.startLine == a.endLine == Decimal.Value(m.line)
      && |m.column| > 0 && Decimal.AllDigits(m.column)
      && a.startColumn == a.endColumn == Decimal.Value(m.column)
      && (a.level == "failure" <==> m.severity == "error")
      && (a.level == "warning" <==> m.severity == "warning")
      && a.title == m.ruleId && |a.title| > 0 && SingleLine(a.title)
      && a.message == m.message && |a.message| > 0 && SingleLine(a.message)
  {
    PathToFirstParen(s, p, m);
  }

  /** The k-th annotation is built from the k-th match of the scan, a match of the pattern
      where it starts. */
  lemma AnnotationOfMatch(s: string, k: nat)
    requires k < |MatchAll.Matches(s)|
    ensures IsMatchAt(s, MatchAll.Matches(s)[k].start, MatchAll.Matches(s)[k])
    ensures Annotations(s)[k] == ToAnnotation(MatchAll.Matches(s)[k])
  {
    MatchAll.MatchesFromSound(s, 0);
  }

  /** A match's path runs from its start to the first parenthesis after it. */
  lemma PathToFirstParen(s: string, p: nat, m: Match)
    requires IsMatchAt(s, p, m)
    ensures p + |m.path| < |s| && PathEnd(s, p) == p + |m.path| && s[p + |m.path|] == '('
  {
    var f, l, c := MatchLayout(s, p, m);
    PathScan(s, p, f, m.path);
  }

  /** The split between title and message is the last `": "` of the line: every other way
      the pattern could match there has a rule id no longer than the title, and the same
      text after the severity. */
  lemma AnnotationGreedy(s: string, k: nat, m': Match)
    requires k < |MatchAll.Matches(s)| && IsMatchAt(s, MatchAll.Matches(s)[k].start, m')
    ensures |m'.ruleId| <= |Annotations(s)[k].title|
    ensures Annotations(s)[k].title + (": " + Annotations(s)[k].message)
            == m'.ruleId + (": " + m'.message)
  {
    var m := MatchAll.Matches(s)[k];
    MatchAll.MatchesFromReported(s, 0);
    var r := MatchAtComplete(s, m.start, m');
    assert r == m;
  }

  /** An annotation's message holds no `": "` but possibly as its last two characters: a
      message that contains one loses its leading part to the title. */
  lemma MessageAfterLastSeparator(s: string, k: nat)
    requires k < |MatchAll.Matches(s)|
    ensures NoInnerSeparator(Annotations(s)[k].message)
  {
    var m := MatchAll.Matches(s)[k];
    MatchAll.MatchesFromReported(s, 0);
    MatchAtLastSeparator(s, m.start, m);
  }

  /** The two severities the compiler reports. */
  datatype Severity = Error | Warning

  function Keyword(severity: Severity): string {
    match severity
    case Error => "error"
    case Warning => "warning"
  }

  /** One diagnostic as the compiler prints it with `--pretty false`. */
  datatype Diagnostic = Diagnostic(path: string, line: nat, column: nat, severity: Severity,
                                   ruleId: string, message: string)

  /** The line `path(line,column): severity ruleId: message`. */
  function Format(d: Diagnostic): string {
    d.path + ("(" + (Decimal.Spell(d.line) + ("," + (Decimal.Spell(d.column)
      + ("): " + (Keyword(d.severity) + (" " + (d.ruleId + (": " + d.message)))))))))
  }

  /** Diagnostics whose printed line the pattern reads back unchanged: the path is
      non-empty and paren-free, rule id and message are non-empty single lines, and the
      message holds no `": "` of its own. */
  predicate Printable(d: Diagnostic) {
    |d.path| > 0 && NoParens(d.path)
    && |d.ruleId| > 0 && SingleLine(d.ruleId)
    && |d.message| > 0 && SingleLine(d.message) && NoInnerSeparator(d.message)
  }

  /** The annotation a diagnostic should give. */
  function Annotate(d: Diagnostic): Annotation {
    Annotation(d.path, d.line, d.line, d.column, d.column,
               if d.severity == Error then "failure" else "warning", d.ruleId, d.message)
  }

  function AnnotateAll(ds: seq<Diagnostic>): (anns: seq<Annotation>)
    ensures |anns| == |ds| && forall k :: 0 <= k < |ds| ==> anns[k] == Annotate(ds[k])
  {
    seq(|ds|, k requires 0 <= k < |ds| => Annotate(ds[k]))
  }

  /** A compiler report: each diagnostic printed on its own line. */
  function Listing(ds: seq<Diagnostic>): string {
    if |ds| == 0 then "" else Format(ds[0]) + ("\n" + Listing(ds[1..]))
  }

  /** A printed diagnostic that starts a line and ends one is what the engine matches
      there, and its annotation is the diagnostic's. */
  lemma DiagnosticMatch(s: string, p: nat, d: Diagnostic) returns (m: Match)
    requires Printable(d) && p + |Format(d)| <= |s| && s[p..p + |Format(d)|] == Format(d)
    requires IsLineStart(s, p) && IsLineEnd(s, p + |Format(d)|)
    ensures MatchAt(s, p) == Some(m) && m.end == p + |Format(d)|
    ensures GroupsWellFormed(m) && ToAnnotation(m) == Annotate(d)
  {
    SliceSpells(s, p, p + |Format(d)|);
    m := Match(p, p + |Format(d)|, d.path, Decimal.Spell(d.line), Decimal.Spell(d.column),
               Keyword(d.severity), d.ruleId, d.message);
    assert Spelled(m) == Format(d);
    assert IsMatchAt(s, p, m);
    MatchAtExact(s, p, m);
    Decimal.ValueOfSpell(d.line);
    Decimal.ValueOfSpell(d.column);
  }

  /** A report that starts at p holds its first line, a line break, and the rest: the
      scan meets its first diagnostic there, and after it resumes at the next line. */
  lemma ListingParts(s: string, p: nat, ds: seq<Diagnostic>) returns (e: nat)
    requires |ds| > 0 && p <= |s| && s[p..] == Listing(ds)
    ensures e == p + |Format(ds[0])| < |s| && s[p..e] == Format(ds[0])
    ensures s[e] == '\n' && IsLineEnd(s, e) && IsLineStart(s, e + 1)
    ensures s[e + 1..] == Listing(ds[1..])
  {
    e := p + |Format(ds[0])|;
    ListingCons(ds);
    var rest := "\n" + Listing(ds[1..]);
    assert s[p..] == Format(ds[0]) + rest;
    assert s[p..e] == s[p..][..|Format(ds[0])|];
    assert s[e..] == s[p..][|Format(ds[0])|..] == rest;
    assert s[e] == rest[0];
    assert s[e + 1..] == rest[1..];
  }

  /** The annotations of a scan that yields m and then resumes at q. */
  lemma AnnotationsCons(s: string, p: nat, q: nat, m: Match)
    requires p <= |s| && q <= |s| && GroupsWellFormed(m)
    requires MatchAll.MatchesFrom(s, p) == [m] + MatchAll.MatchesFrom(s, q)
    ensures AnnotationsFrom(s, p) == [ToAnnotation(m)] + AnnotationsFrom(s, q)
  {
    var ms := MatchAll.MatchesFrom(s, q);
    MatchesWellFormed(s, q);
    assert forall k :: 0 < k <= |ms| ==> MatchAll.MatchesFrom(s, p)[k] == ms[k - 1];
  }

  /** Scanning a report that starts a line at index p and runs to the end of the text gives
      back the annotations of its diagnostics, in order. */
  lemma {:induction false} ListingFrom(s: string, p: nat, ds: seq<Diagnostic>)
    requires forall k :: 0 <= k < |ds| ==> Printable(ds[k])
    requires p <= |s| && s[p..] == Listing(ds) && IsLineStart(s, p)
    ensures AnnotationsFrom(s, p) == AnnotateAll(ds)
    decreases |ds|
  {
    if |ds| == 0 {
      MatchAll.MatchesFromEnd(s);
    } else {
      var q := ListingHead(s, p, ds);
      ListingFrom(s, q, ds[1..]);
      AnnotateAllCons(ds);
    }
  }

  /** The first diagnostic of a report that starts a line at index p gives the first
      annotation, and the scan goes on at the start of the report's next line. */
  lemma ListingHead(s: string, p: nat, ds: seq<Diagnostic>) returns (q: nat)
    requires |ds| > 0 && Printable(ds[0])
    requires p <= |s| && s[p..] == Listing(ds) && IsLineStart(s, p)
    ensures q <= |s| && s[q..] == Listing(ds[1..]) && IsLineStart(s, q)
    ensures AnnotationsFrom(s, p) == [Annotate(ds[0])] + AnnotationsFrom(s, q)
  {
    var e := ListingParts(s, p, ds);
    var m := DiagnosticMatch(s, p, ds[0]);
    q := e + 1;
    assert MatchAll.MatchesFrom(s, p) == [m] + MatchAll.MatchesFrom(s, q) by {
      MatchAll.ResumeAtNextLine(s, p);
    }
    AnnotationsCons(s, p, q, m);
  }

  /** Round trip: the annotations of a report of printable diagnostics are exactly the
      annotations those diagnostics should give. */
  lemma ListingRoundTrip(ds: seq<Diagnostic>)
    requires forall k :: 0 <= k < |ds| ==> Printable(ds[k])
    ensures Annotations(Listing(ds)) == AnnotateAll(ds)
  {
    ListingFrom(Listing(ds), 0, ds);
  }

  /** The diagnostic an annotation records, to be printed again: a `failure` is an error and
      any other level a warning. Annotating it gives the annotation back whenever both ends
      of the range agree and the level is one `lint` produces. */
  function ToDiagnostic(a: Annotation): (d: Diagnostic)
    ensures (a.startLine == a.endLine && a.startColumn == a.endColumn
             && (a.level == "failure" || a.level == "warning")) ==> Annotate(d) == a
  {
    Diagnostic(a.path, a.startLine, a.startColumn,
               if a.level == "failure" then Error else Warning, a.title, a.message)
  }

  function ToDiagnostics(anns: seq<Annotation>): (ds: seq<Diagnostic>)
    ensures |ds| == |anns| && forall k :: 0 <= k < |anns| ==> ds[k] == ToDiagnostic(anns[k])
  {
    seq(|anns|, k requires 0 <= k < |anns| => ToDiagnostic(anns[k]))
  }

  /** Every annotation `lint` produces is printable again, and printing gives it back. */
  lemma AnnotationReprints(s: string, k: nat)
    requires k < |Annotations(s)|
    ensures Printable(ToDiagnostic(Annotations(s)[k]))
    ensures Annotate(ToDiagnostic(Annotations(s)[k])) == Annotations(s)[k]
  {
    var m := MatchAll.Matches(s)[k];
    AnnotationOfMatch(s, k);
    MatchAnnotation(s, m.start, m);
    MessageAfterLastSeparator(s, k);
  }

  /** Re-parsing is idempotent: the annotations of a chunk, printed again as a report, parse
      back to the same annotations. */
  lemma ReparseIdempotent(s: string)
    ensures Annotations(Listing(ToDiagnostics(Annotations(s)))) == Annotations(s)
  {
    var anns := Annotations(s);
    var ds := ToDiagnostics(anns);
    forall k | 0 <= k < |ds|
      ensures Printable(ds[k]) && Annotate(ds[k]) == anns[k]
    {
      AnnotationReprints(s, k);
    }
    ListingRoundTrip(ds);
  }

  /** A printed message holding `": "` loses its leading part to the title: the line reads
      back as the diagnostic whose rule id runs up to the message's last separator. */
  lemma SeparatorInMessage(d: Diagnostic, before: string, after: string)
    requires d.message == before + (": " + after)
    requires Printable(d.(ruleId := d.ruleId + (": " + before), message := after))
    ensures Annotations(Listing([d]))
            == [Annotate(d).(title := d.ruleId + (": " + before), message := after)]
  {
    var d' := d.(ruleId := d.ruleId + (": " + before), message := after);
    assert d.ruleId + (": " + d.message) == d'.ruleId + (": " + d'.message);
    assert Format(d) == Format(d');
    assert Listing([d]) == Listing([d']);
    ListingRoundTrip([d']);
  }

  /** Text put before a diagnostic's path is put before its printed line. */
  lemma FormatPrefix(t: string, d: Diagnostic)
    ensures Format(d.(path := t + d.path)) == t + Format(d)
  {
    var rest := "(" + (Decimal.Spell(d.line) + ("," + (Decimal.Spell(d.column)
      + ("): " + (Keyword(d.severity) + (" " + (d.ruleId + (": " + d.message))))))));
    assert Format(d) == d.path + rest;
    assert Format(d.(path := t + d.path)) == (t + d.path) + rest;
    Associative(t, d.path, rest);
  }

  lemma Associative(a: string, b: string, c: string)
    ensures (a + b) + c == a + (b + c)
  {
  }

  lemma AnnotateAllCons(ds: seq<Diagnostic>)
    requires |ds| > 0
    ensures AnnotateAll(ds) == [Annotate(ds[0])] + AnnotateAll(ds[1..])
  {
  }

  lemma ListingCons(ds: seq<Diagnostic>)
    requires |ds| > 0
    ensures Listing(ds) == Format(ds[0]) + ("\n" + Listing(ds[1..]))
  {
  }

  /** The report ds with t put before the path of its first diagnostic. */
  function Prefixed(t: string, ds: seq<Diagnostic>): seq<Diagnostic>
    requires |ds| > 0
  {
    [ds[0].(path := t + ds[0].path)] + ds[1..]
  }

  lemma PrefixedPrintable(t: string, ds: seq<Diagnostic>)
    requires NoParens(t) && |ds| > 0 && forall k :: 0 <= k < |ds| ==> Printable(ds[k])
    ensures forall k :: 0 <= k < |ds| ==> Printable(Prefixed(t, ds)[k])
  {
    var path := t + ds[0].path;
    forall i | 0 <= i < |path|
      ensures IsPathChar(path[i])
    {
      if i >= |t| {
        assert path[i] == ds[0].path[i - |t|];
      }
    }
  }

  lemma PrefixedListing(t: string, ds: seq<Diagnostic>)
    requires |ds| > 0
    ensures Listing(Prefixed(t, ds)) == t + Listing(ds)
  {
    var ds' := Prefixed(t, ds);
    assert ds'[1..] == ds[1..];
    FormatPrefix(t, ds[0]);
    ListingCons(ds);
    ListingCons(ds');
    Associative(t, Format(ds[0]), "\n" + Listing(ds[1..]));
  }

  /** Paren-free text before a report, blank lines included, is glued onto the path of its
      first diagnostic. */
  lemma ParenFreePrefixJoinsPath(t: string, ds: seq<Diagnostic>)
    requires NoParens(t) && |ds| > 0 && forall k :: 0 <= k < |ds| ==> Printable(ds[k])
    ensures Annotations(t + Listing(ds))
            == [Annotate(ds[0]).(path := t + ds[0].path)] + AnnotateAll(ds[1..])
  {
    var ds' := Prefixed(t, ds);
    PrefixedPrintable(t, ds);
    PrefixedListing(t, ds);
    ListingRoundTrip(ds');
    AnnotateAllCons(ds');
    assert ds'[1..] == ds[1..];
  }
}
