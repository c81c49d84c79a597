/** The compiler command line that `run` in src/main.ts builds: seven base arguments, the
    project file appended when the `project` input is set, and three splices that switch
    to build mode when the `build` input is set. */
module TscArgs {

  /** Where `Array.prototype.splice` starts: a negative start counts back from the end,
      and the result is clamped into the array (section 23.1.3.31 of ECMA-262). */
  function SpliceStart(start: int, len: nat): (s: nat)
    ensures s <= len
    ensures 0 <= start <= len ==> s == start
    ensures start < 0 && 0 <= len + start ==> s as int == len + start
    ensures start > len ==> s == len
    ensures len + start < 0 ==> s == 0
  {
    if start < 0 then (if len + start < 0 then 0 else len + start)
    else if start < len then start else len
  }

  /** How many elements `splice` removes: the delete count clamped to what follows the
      start. */
  function SpliceCount(deleteCount: int, s: nat, len: nat): (d: nat)
    requires s <= len
    ensures s + d <= len
    ensures 0 <= deleteCount <= len - s ==> d == deleteCount
    ensures deleteCount < 0 ==> d == 0
    ensures deleteCount > len - s ==> d == len - s
  {
    if deleteCount < 0 then 0 else if deleteCount < len - s then deleteCount else len - s
  }

  /** The array `splice(start, deleteCount, ...items)` leaves behind. */
  function Spliced(xs: seq<string>, start: int, deleteCount: int, items: seq<string>)
    : (ys: seq<string>)
    ensures |ys| == |xs| - SpliceCount(deleteCount, SpliceStart(start, |xs|), |xs|) + |items|
  {
    var s := SpliceStart(start, |xs|);
    xs[..s] + items + xs[s + SpliceCount(deleteCount, s, |xs|)..]
  }

  /** `splice(-1, …)` addresses the last element of a non-empty array, whatever it holds. */
  lemma SpliceFromEndIsLast(len: nat)
    requires len > 0
    ensures SpliceStart(-1, len) == len - 1 && SpliceCount(1, len - 1, len) == 1
  {
  }

  /** A JavaScript array of strings, updated in place. */
  class JsArray {
    var elems: seq<string>

    constructor(init: seq<string>)
      ensures elems == init
    {
      elems := init;
    }

    /** `push(...items)`. */
    method Push(items: seq<string>)
      modifies this
      ensures elems == old(elems) + items
    {
      elems := elems + items;
    }

    /** `splice(start, deleteCount, ...items)`: removes the clamped range, puts the items in
        its place and returns what it removed. */
    method Splice(start: int, deleteCount: int, items: seq<string>) returns (removed: seq<string>)
      modifies this
      ensures var s := SpliceStart(start, |old(elems)|);
              removed == old(elems)[s..s + SpliceCount(deleteCount, s, |old(elems)|)]
      ensures elems == Spliced(old(elems), start, deleteCount, items)
    {
      var s := SpliceStart(start, |elems|);
      removed := elems[s..s + SpliceCount(deleteCount, s, |elems|)];
      elems := Spliced(elems, start, deleteCount, items);
    }
  }

  /** The seven arguments every run starts from, after the compiler's path. */
  function Base(tsc: string): (args: seq<string>)
    ensures |args| == 7 && args[0] == tsc
  {
    [tsc, "--noEmit", "--noErrorTruncation", "--pretty", "false", "--incremental", "false"]
  }

  /** The command line the comments at src/main.ts:23 and :25 describe: in build mode the
      two flags `--build` rejects give way to `--build` and its argument and incremental
      builds are switched on; the project file, when set, comes last. */
  function IntendedArgs(tsc: string, project: string, build: string): seq<string> {
    [tsc]
    + (if |build| > 0 then ["--build", build] else ["--noEmit", "--noErrorTruncation"])
    + ["--pretty", "false", "--incremental", if |build| > 0 then "true" else "false"]
    + (if |project| > 0 then ["--project", project] else [])
  }

  /** The intended command line starts with the compiler, keeps the project path, and turns
      incremental builds on exactly in build mode. */
  lemma IntendedArgsShape(tsc: string, project: string, build: string)
    ensures var args := IntendedArgs(tsc, project, build);
      && |args| == (if |project| > 0 then 9 else 7) && args[0] == tsc
      && args[5] == "--incremental" && (args[6] == "true" <==> |build| > 0)
      && (|project| > 0 ==> args[7..] == ["--project", project])
      && (|build| > 0 ==> args[1..3] == ["--build", build])
      && (|build| == 0 ==> args[..7] == Base(tsc))
  {
  }

  /** The intended command line out of and in build mode, ahead of the project arguments. */
  lemma IntendedCases(tsc: string, project: string, build: string, tail: seq<string>)
    requires tail == if |project| > 0 then ["--project", project] else []
    ensures |build| == 0 ==> IntendedArgs(tsc, project, build) == Base(tsc) + tail
    ensures |build| > 0 ==>
      IntendedArgs(tsc, project, build)
      == [tsc, "--build", build, "--pretty", "false", "--incremental", "true"] + tail
  {
  }

  /** The arguments after `--build` and its argument are inserted after the compiler. */
  function Inserted(tsc: string, build: string): seq<string> {
    [tsc, "--build", build, "--noEmit", "--noErrorTruncation", "--pretty", "false",
     "--incremental", "false"]
  }

  /** The arguments after the two flags `--build` rejects are removed. */
  function Dropped(tsc: string, build: string): seq<string> {
    [tsc, "--build", build, "--pretty", "false", "--incremental", "false"]
  }

  lemma InsertBuild(tsc: string, build: string, tail: seq<string>)
    ensures Spliced(Base(tsc) + tail, 1, 0, ["--build", build]) == Inserted(tsc, build) + tail
  {
    var ys := Spliced(Base(tsc) + tail, 1, 0, ["--build", build]);
    assert ys == ys[..1] + ys[1..3] + ys[3..];
  }

  lemma DropFlags(tsc: string, build: string, tail: seq<string>)
    ensures Spliced(Inserted(tsc, build) + tail, 3, 2, []) == Dropped(tsc, build) + tail
  {
    var ys := Spliced(Inserted(tsc, build) + tail, 3, 2, []);
    assert ys == ys[..3] + ys[3..];
  }

  /** What the second splice removes is exactly the two flags `--build` rejects, and the
      `--pretty false --incremental` arguments follow `--build` and its argument after it. */
  lemma DroppedFlags(tsc: string, build: string, tail: seq<string>)
    ensures var xs := Inserted(tsc, build) + tail;
      var s := SpliceStart(3, |xs|);
      xs[s..s + SpliceCount(2, s, |xs|)] == ["--noEmit", "--noErrorTruncation"]
    ensures Dropped(tsc, build)[3..6] == ["--pretty", "false", "--incremental"]
  {
    var xs := Inserted(tsc, build) + tail;
    assert xs[3..5] == Inserted(tsc, build)[3..5];
  }

  /** Without project arguments the last element is the `--incremental` value. */
  lemma ReplaceLastAlone(tsc: string, build: string)
    ensures Spliced(Dropped(tsc, build), -1, 1, ["true"])
            == [tsc, "--build", build, "--pretty", "false", "--incremental", "true"]
  {
    var ys := Spliced(Dropped(tsc, build), -1, 1, ["true"]);
    assert ys == ys[..6] + ys[6..7];
  }

  /** With project arguments the last element is the project path. */
  lemma ReplaceLastProject(tsc: string, build: string, project: string)
    ensures Spliced(Dropped(tsc, build) + ["--project", project], -1, 1, ["true"])
            == [tsc, "--build", build, "--pretty", "false", "--incremental", "false",
                "--project", "true"]
  {
    var ys := Spliced(Dropped(tsc, build) + ["--project", project], -1, 1, ["true"]);
    assert ys == ys[..8] + ys[8..9];
  }

  /** Index 6 holds the `--incremental` value with or without project arguments. */
  lemma ReplaceIncremental(tsc: string, build: string, tail: seq<string>)
    ensures Spliced(Dropped(tsc, build) + tail, 6, 1, ["true"])
            == [tsc, "--build", build, "--pretty", "false", "--incremental", "true"] + tail
  {
    var ys := Spliced(Dropped(tsc, build) + tail, 6, 1, ["true"]);
    assert ys == ys[..6] + ys[6..7] + ys[7..];
  }

  /** `run`'s argument construction as written. Empty inputs count as absent. With both
      inputs set, the last splice replaces the project path instead of the `--incremental`
      value, so the result differs from the intended command line exactly then. */
  method BuildTscArgs(tsc: string, project: string, build: string) returns (args: seq<string>)
    ensures |args| == (if |project| > 0 then 9 else 7) && args[0] == tsc
    ensures |project| == 0 && |build| == 0 ==> args == Base(tsc)
    ensures |project| > 0 && |build| == 0 ==> args == Base(tsc) + ["--project", project]
    ensures |build| > 0 ==>
      args[1] == "--build" && args[2] == build
      && args[3] == "--pretty" && args[4] == "false" && args[5] == "--incremental"
    ensures |project| == 0 && |build| > 0 ==>
      args == [tsc, "--build", build, "--pretty", "false", "--incremental", "true"]
    ensures |project| > 0 && |build| > 0 ==>
      args == [tsc, "--build", build, "--pretty", "false", "--incremental", "false",
               "--project", "true"]
    ensures args == IntendedArgs(tsc, project, build) <==> |project| == 0 || |build| == 0
  {
    var a := new JsArray(Base(tsc));
    ghost var tail: seq<string> := [];
    if |project| > 0 {
      a.Push(["--project", project]);
      tail := ["--project", project];
    }
    if |build| > 0 {
      var added := a.Splice(1, 0, ["--build", build]);
      InsertBuild(tsc, build, tail);
      var dropped := a.Splice(3, 2, []);
      DropFlags(tsc, build, tail);
      var replaced := a.Splice(-1, 1, ["true"]);
      if |project| > 0 {
        ReplaceLastProject(tsc, build, project);
      } else {
        ReplaceLastAlone(tsc, build);
      }
    }
    args := a.elems;
    WrittenShape(tsc, project, build, args);
  }

  /** The shape of the three results the construction as written gives. */
  lemma WrittenShape(tsc: string, project: string, build: string, args: seq<string>)
    requires |build| == 0 ==>
      args == Base(tsc) + (if |project| > 0 then ["--project", project] else [])
    requires |project| == 0 && |build| > 0 ==>
      args == [tsc, "--build", build, "--pretty", "false", "--incremental", "true"]
    requires |project| > 0 && |build| > 0 ==>
      args == [tsc, "--build", build, "--pretty", "false", "--incremental", "false",
               "--project", "true"]
    ensures |args| == (if |project| > 0 then 9 else 7) && args[0] == tsc
    ensures |project| == 0 && |build| == 0 ==> args == Base(tsc)
    ensures |project| > 0 && |build| == 0 ==> args == Base(tsc) + ["--project", project]
    ensures |build| > 0 ==>
      args[1] == "--build" && args[2] == build
      && args[3] == "--pretty" && args[4] == "false" && args[5] == "--incremental"
    ensures args == IntendedArgs(tsc, project, build) <==> |project| == 0 || |build| == 0
  {
    var tail: seq<string> := if |project| > 0 then ["--project", project] else [];
    IntendedCases(tsc, project, build, tail);
    if |project| > 0 && |build| > 0 {
      assert args[6] != IntendedArgs(tsc, project, build)[6];
    }
  }

  /** The construction with the last splice aimed at the `--incremental` value, which sits
      at index 6 with or without the project arguments after it. */
  method BuildTscArgsCorrected(tsc: string, project: string, build: string)
    returns (args: seq<string>)
    ensures args == IntendedArgs(tsc, project, build)
  {
    var a := new JsArray(Base(tsc));
    ghost var tail: seq<string> := [];
    if |project| > 0 {
      a.Push(["--project", project]);
      tail := ["--project", project];
    }
    if |build| > 0 {
      var added := a.Splice(1, 0, ["--build", build]);
      InsertBuild(tsc, build, tail);
      var dropped := a.Splice(3, 2, []);
      DropFlags(tsc, build, tail);
      var replaced := a.Splice(6, 1, ["true"]);
      ReplaceIncremental(tsc, build, tail);
    }
    args := a.elems;
    IntendedCases(tsc, project, build, tail);
  }
}
