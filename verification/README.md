# action-tsc in Dafny

action-tsc is a CI action. It runs the TypeScript compiler and reads the diagnostics the
compiler prints. It turns each diagnostic into an annotation on a check run of the hosting
platform, then completes that run with a conclusion. This project models three pieces of it:

- **`lint`** (`lint.dfy`, `pattern.dfy`, `matchall.dfy`, `decimal.dfy`). This is the
  global, multiline scan of one chunk of compiler output with the diagnostic pattern
  `^([^()]+)\((\d+),(\d+)\): (error|warning) (.+): (.+)$`. It builds one annotation per match
  and returns a conclusion and summary.
  - The pattern is modelled with JavaScript's semantics: line terminators are `\n`, `\r`,
    U+2028 and U+2029; `[^()]` also matches line breaks; the quantifiers are greedy; and the
    scan resumes where a match ends.
  - `DiagnosticPattern.MatchAt` is the match a backtracking engine reports at one index.
    `DiagnosticPattern.IsMatchAt` is the pattern's language. The engine is proved sound and
    complete against it, and the greedy rule group is proved to split at the last `": "` of
    the line that leaves a non-empty message.
  - `MatchAll.MatchesFrom` is `matchAll`. `Lint.Lint` is the loop that pushes annotations.
  - Round-trip lemmas show that a report of printed diagnostics parses back to their
    annotations, and that re-printing the annotations of any chunk re-parses to the same
    annotations. Further lemmas show where the pattern departs from a
    "one line, one diagnostic" reading.
- **`check`** (`reporter.dfy`). These are the decisions around one `lint` run:
  - the commit the run is reported against;
  - whether an in-progress run is reused or a new one is created;
  - whether the completion update is sent;
  - whether the action is marked failed.

  Each call to the hosting platform is a parameter holding only what it answered (`Ok(v)`
  or `Err`).
- **`run`'s compiler arguments** (`tscargs.dfy`). `JsArray` is the argument array, updated
  in place by `push` and `splice` with ECMA-262 semantics. `BuildTscArgs` is the
  construction as written. `BuildTscArgsCorrected` is the construction the comments
  describe (see Findings).

A pull-request query that succeeds with an empty commit node list does not fall back to the
workflow's commit: it throws at dist/main.js:67, and `Reporter.Check` returns `Err` then.
The conclusion is kept as the code computes it: `success` when there are annotations and
`failure` when there are none.

## Model

| member | source | states |
|---|---|---|
| Decimal.Value | dist/main.js:16-19 | `parseInt(_, 10)` on a digit run: k digits read as less than 10 to the power k; `ValueOfSpell` and `ValueLeadingZero` tie it to the decimal spelling |
| Decimal.ValueOfSpell | dist/main.js:16-19 | `parseInt(_, 10)` of a number's decimal spelling gives the number back |
| Decimal.ValueLeadingZero | dist/main.js:16-19 | a leading zero does not change the value `parseInt` reads |
| DiagnosticPattern.PathEnd | dist/main.js:11 | the greedy `[^()]+` stops at the first parenthesis at or after its start, or at the end of the text |
| DiagnosticPattern.DigitsEnd | dist/main.js:11 | the greedy `\d+` stops at the first non-digit |
| DiagnosticPattern.LineEnd | dist/main.js:11 | the greedy `.+` stops at a line end (`$` in multiline mode) and never crosses a line terminator |
| DiagnosticPattern.LastSeparator | dist/main.js:11 | the split the rule group settles on is a `": "` inside the searched range |
| DiagnosticPattern.LastSeparatorIsLast | dist/main.js:11 | no `": "` lies after the split that the search finds |
| DiagnosticPattern.SeverityAt | dist/main.js:11 | the group `(error\|warning)` captures one of its two words or fails |
| DiagnosticPattern.MatchAt | dist/main.js:11 | an attempt at index p reports a non-empty match that starts at p and ends at a line end, never just after a line terminator |
| DiagnosticPattern.CutsAt | dist/main.js:11 | the engine's cut points lie in order, with a non-empty capture between each two |
| DiagnosticPattern.CoordinatesAt | dist/main.js:11 | the stage `(\d+),(\d+)\): ` after the path: on success the cuts are ordered, keep the path's `(` and end at a line end |
| DiagnosticPattern.TailAt | dist/main.js:11 | the stage `(error\|warning) (.+): (.+)$`: on success the cuts are ordered, keep the coordinates' cuts and end at a line end |
| DiagnosticPattern.MatchAtSound | dist/main.js:11 | every match the engine reports is a match of the pattern: it starts at a line start, ends at a line end, and spells path, `(`, digits, `,`, digits, `): `, severity, space, rule id, `: `, message |
| DiagnosticPattern.MatchAtComplete | dist/main.js:11 | wherever the pattern matches, the engine reports a match there that agrees on the span, path, line, column and severity, with a rule id at least as long and the same text after the severity |
| DiagnosticPattern.ChosenExact | dist/main.js:11 | when the message holds no `": "`, the engine's choice and the pattern's match are equal |
| DiagnosticPattern.MatchAtExact | dist/main.js:11 | a match whose message holds no `": "` is exactly what the engine reports |
| DiagnosticPattern.MatchAtLastSeparator | dist/main.js:11 | the reported message holds no `": "` except possibly as its last two characters: the split is at the last separator of the line that leaves a non-empty message |
| DiagnosticPattern.Resplit | dist/main.js:11 | moving the rule/message split to a later `": "` keeps the text and leaves a longer rule id and a non-empty message |
| MatchAll.Scan | dist/main.js:11 | a global scan from index i of a text of length n yields at most n - i matches; `ScanOrdered`, `ScanReported` and `ScanCovers` state its order and completeness |
| MatchAll.MatchesFrom | dist/main.js:11 | `matchAll` from index i yields at most one match per remaining character; its partner lemmas below state order, soundness and completeness |
| MatchAll.Matches | dist/main.js:11 | `data.matchAll(...)` over the whole chunk yields at most one match per character |
| MatchAll.ScanOrdered | dist/main.js:11 | a global scan yields non-empty, disjoint matches in text order |
| MatchAll.ScanCovers | dist/main.js:11 | a global scan loses no successful attempt: it yields that match, or one that spans its index |
| MatchAll.MatchesFromOrdered | dist/main.js:11 | `matchAll`'s matches are non-empty, disjoint and in text order |
| MatchAll.MatchesFromStep | dist/main.js:11 | the scan yields the match at the search index and resumes at its end, or moves one index on |
| MatchAll.ResumeAtNextLine | dist/main.js:11 | after a match the scan resumes just after the line terminator that ends it |
| MatchAll.MatchesFromReported | dist/main.js:11 | every yielded match is the engine's report at its start |
| MatchAll.MatchesFromSound | dist/main.js:11 | every yielded match is a match of the pattern |
| MatchAll.MatchesFromComplete | dist/main.js:11 | no match of the pattern is missed: one is yielded that starts there and agrees with it, or one that spans it |
| Lint.ToAnnotation | dist/main.js:13-23 | the annotation keeps path and message; start and end line are equal, as are start and end column; the level is `failure` exactly for `error` and `warning` exactly for `warning`; the title is the rule id |
| Lint.AnnotationsFrom | dist/main.js:11-24 | there are as many annotations as matches |
| Lint.Annotations | dist/main.js:10-24 | the `annotations` array holds one entry per match; `AnnotationOfMatch` gives each entry's contents |
| Lint.Conclude | dist/main.js:25-31 | the conclusion is `success` and the summary `Green lights` if and only if there is an annotation; otherwise they are `failure` and `TSC error`; the title is `TSC` and the annotations are passed through |
| Lint.Lint | dist/main.js:9-33 | the loop pushes one annotation per match, in scan order, and returns the record `Conclude` describes |
| Lint.AnnotationOfMatch | dist/main.js:11-14 | the k-th annotation comes from the k-th match, a match of the pattern |
| Lint.MatchAnnotation | dist/main.js:11-22 | the path is non-empty and paren-free and ends right before the first `(` after the match's start; line and column are the decimal values of non-empty digit runs; the title is the rule id, non-empty and single-line, so the `TSC` fallback never applies; the message is non-empty and single-line |
| Lint.PathToFirstParen | dist/main.js:11-15 | a match's path runs to the first parenthesis after its start |
| Lint.AnnotationGreedy | dist/main.js:11-22 | any other way the pattern could split the same line has a rule id no longer than the title, over the same text |
| Lint.MessageAfterLastSeparator | dist/main.js:11-22 | an annotation's message holds no `": "` except possibly as its last two characters |
| Lint.DiagnosticMatch | dist/main.js:11-22 | a printed diagnostic that fills a line is matched there and gives the diagnostic's own annotation |
| Lint.ListingFrom | dist/main.js:11-24 | scanning a report that starts a line gives the annotations of its diagnostics, in order |
| Lint.ListingRoundTrip | dist/main.js:11-22 | round trip: a report of printable diagnostics, each on its own line, parses back to exactly their annotations |
| Lint.ToDiagnostic | dist/main.js:14-23 | re-printing an annotation with equal range ends and a `failure` or `warning` level annotates back to the same annotation |
| Lint.AnnotationReprints | dist/main.js:11-23 | every annotation `lint` produces is printable again and annotates back to itself |
| Lint.ReparseIdempotent | dist/main.js:9-24 | re-parsing is idempotent: the annotations of any chunk, printed again as a report, parse back to the same annotations |
| Lint.SeparatorInMessage | dist/main.js:11-22 | a message that holds `": "` loses its leading part to the title |
| Lint.ParenFreePrefixJoinsPath | dist/main.js:11-15 | paren-free text before a report, blank lines included, is glued onto the path of its first diagnostic |
| Reporter.LowerChar | dist/main.js:90 | ASCII `toLowerCase` maps upper-case letters to lower case and keeps every other character |
| Reporter.Lower | dist/main.js:90 | `toLowerCase` keeps the length; `LowerEach` states it lowers each character |
| Reporter.LowerEach | dist/main.js:90 | lowering works character by character |
| Reporter.FindRun | dist/main.js:90 | `find` yields an index into the listed runs, or nothing |
| Reporter.FindRunFirst | dist/main.js:90 | `find` yields the first run whose lowered name equals the lowered job name, and nothing when no run matches |
| Reporter.ListedId | dist/main.js:83-97 | a listed run is found exactly when the job name is non-empty, the listing succeeds and a run matches |
| Reporter.Check | dist/main.js:34-131 | the commit chosen, the run reused or created, the update sent only under a held id with `lint`'s record, and `setFailed` exactly when there are no annotations (details below) |
| TscArgs.SpliceStart | src/main.ts:22-26 | `splice` counts a negative start back from the end; a start beyond the length gives the length and one below minus the length gives 0 |
| TscArgs.SpliceCount | src/main.ts:22-26 | `splice` keeps a delete count that fits; a negative one gives 0 and one larger than what follows the start gives what follows it |
| TscArgs.Spliced | src/main.ts:22-26 | the array `splice` leaves has the old length minus the clamped delete count plus the inserted items |
| TscArgs.Base | src/main.ts:9-17 | the array literal has seven elements, the compiler's path first |
| TscArgs.SpliceFromEndIsLast | src/main.ts:26 | `splice(-1, 1)` addresses the last element, whatever it holds |
| TscArgs.JsArray.constructor | src/main.ts:9-17 | the array starts with the given elements |
| TscArgs.JsArray.Push | src/main.ts:19 | `push` appends its items |
| TscArgs.JsArray.Splice | src/main.ts:22-26 | `splice` returns the clamped range and puts the items in its place |
| TscArgs.IntendedArgsShape | src/main.ts:21-27 | the command line the comments describe keeps the project path last and turns incremental builds on exactly in build mode |
| TscArgs.IntendedCases | src/main.ts:21-27 | the intended command line out of and in build mode |
| TscArgs.InsertBuild | src/main.ts:22 | the first splice inserts `--build` and its argument after the compiler |
| TscArgs.DroppedFlags | src/main.ts:23-24 | the second splice removes exactly `--noEmit` and `--noErrorTruncation` |
| TscArgs.DropFlags | src/main.ts:24 | the array after the second splice |
| TscArgs.ReplaceLastAlone | src/main.ts:26 | without a project, the third splice sets the `--incremental` value to `true` |
| TscArgs.ReplaceLastProject | src/main.ts:26 | with a project, the third splice overwrites the project path with `true` |
| TscArgs.ReplaceIncremental | src/main.ts:25 | index 6 holds the `--incremental` value with or without project arguments |
| TscArgs.BuildTscArgs | src/main.ts:9-27 | the exact argument list for each combination of inputs, and that it is the intended one exactly when at most one input is set (details below) |
| TscArgs.WrittenShape | src/main.ts:9-27 | the three results as written: length, compiler first, the build-mode prefix, and agreement with the intended command line exactly when at most one input is set |
| TscArgs.BuildTscArgsCorrected | src/main.ts:21-27 | the construction aimed at index 6 gives the intended command line for all inputs |

What `Reporter.Check` states:

- It fails (`Err`) exactly when there is a pull request number and the query succeeds with
  no commit node. This is the throw at dist/main.js:67.
- It reports against the commit it chose:
  - the pull request's last commit when the query succeeds;
  - the workflow's commit when the query fails;
  - always the workflow's commit without a pull request, whatever the commit lookup answered.
- It lists in-progress runs for that commit exactly when the job name is non-empty.
- It asks for a new run for that commit exactly when no listed run was found under a
  non-zero id. The id it keeps is the found one, or otherwise the created one, or nothing.
- It sends the update exactly when a non-zero id is held. The update carries that id and
  the conclusion and output `lint` returns.
- It fails the action with `TSC error` exactly when there are no annotations, whenever it
  completes, whatever the other remote calls answered.

What `TscArgs.BuildTscArgs` states:

- `args[0]` is the compiler.
- The length is 9 with a project and 7 without, whatever `build` is. An empty input counts
  as absent.
- With no inputs, `args` is the seven base arguments. With only a project, it is the base
  arguments followed by `--project` and the project.
- With `build` set, `args[1..6]` is `--build`, the build argument, `--pretty`, `false` and
  `--incremental`.
- With only `build` set, `args` ends `--incremental true`.
- With both inputs set, `args` ends `--incremental false --project true`.
- `args` equals the intended command line exactly when at most one input is set.

## Left out

- Running the compiler (`exec` at src/main.ts:29 and dist/main.js:151) is left out. So is
  `setFailed('')` when it fails. These are process I/O.
- The compiler's path is a parameter `tsc`. The `join` with the working directory that
  produces it is not modelled.
- The calls to the hosting platform (the GraphQL query, `getCommit`, `listForRef`, `create`
  and `update`) are not modelled. Each is represented only by its answer in
  `Reporter.Remote`. The answers of `getCommit` and `update` are carried but change no
  decision, as in the code.
- Timestamps, `console.log` warnings, `core.debug`, `process.env`, `context.repo` and the
  token are not modelled. They are environment state or logging.
- The stdout listener (dist/main.js:151-157) is left out. It runs `check` once per
  asynchronous output chunk. The model runs `lint` and `check` on one given chunk.
- The outer `catch` of `check` (dist/main.js:132-147) is left out. Every remote call inside
  its `try` has its own `catch`, and `lint` does not throw.
- Reporter.Check: the throw at dist/main.js:67 is modelled only for a query that succeeds
  with an empty commit node list, returning `Err`. A reply without a repository or pull
  request, which throws there too, is not a separate outcome. Nothing after the throw is
  modelled.
- Decimal.Value: `parseInt` is modelled on unbounded naturals. Its loss of precision above
  2^53 is not modelled.
- Reporter.LowerChar: only ASCII letters are folded. Unicode `toLowerCase` is not modelled.
- The problem-matcher registration at src/main.ts:8 is not modelled. It points to
  `.github/tsc.json`, which is not part of this model.
- The source map at the end of dist/main.js is not code and is not modelled.
- MatchAll.MatchesFromComplete, DiagnosticPattern.MatchAtComplete: where a line holds
  several `": "`, the engine's match agrees with another match of the pattern only up to
  where the rule id ends. The engine's own choice is pinned down by
  `MatchAtLastSeparator`.

## Findings

| source | as written | input that shows it | evidently intended | confidence | as-written member | corrected member |
|---|---|---|---|---|---|---|
| src/main.ts:26 | `args.splice(-1, 1, 'true')` replaces the last element. With a project set, the last element is the project path. | project `tsconfig.json` and build `.`: the arguments end `--incremental false --project true` | replace the `--incremental` value (index 6), as the comment at src/main.ts:25 says, giving `--incremental true --project tsconfig.json` | high; not executed | TscArgs.BuildTscArgs | TscArgs.BuildTscArgsCorrected |
