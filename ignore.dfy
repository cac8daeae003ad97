/** The ignore matcher (`shouldIgnore`) and the `.syncignore` loader
    (`loadSyncIgnoreFile`). The process-wide `ignorePatterns` slice is passed
    in as the value it has before loading and handed back as the value it has
    after loading. */
module Ignore {
  import opened SyncTypes
  import opened Text

  /** `shouldIgnore`: scans the patterns in order and stops at the first one
      equal to `path`. Exact, case-sensitive comparison: no globbing, no
      directory-prefix matching. */
  function ShouldIgnore(patterns: seq<string>, path: string): (r: bool)
    ensures r <==> exists i :: 0 <= i < |patterns| && patterns[i] == path
  {
    if patterns == [] then false
    else if patterns[0] == path then true
    else
      var r := ShouldIgnore(patterns[1..], path);
      assert r ==> exists i :: 1 <= i < |patterns| && patterns[i] == path by {
        if r {
          var j :| 0 <= j < |patterns[1..]| && patterns[1..][j] == path;
          assert patterns[j + 1] == path;
        }
      }
      r
  }

  /** What the `.syncignore` open returned. `Absent` is the `os.IsNotExist`
      case; `Lines` holds the lines `bufio.Scanner` delivered, in file order,
      and whether the scan stopped on a read error after them. */
  datatype IgnoreFile =
    | Absent
    | Unopenable
    | Lines(lines: seq<string>, readFailed: bool)

  /** A trimmed line is a pattern unless it is blank or a `#` comment. */
  predicate IsPatternLine(line: string)
  {
    line != "" && line[0] != '#'
  }

  /** The patterns a sequence of lines contributes, in file order: every
      trimmed line that is neither blank nor a comment. */
  function KeptPatterns(lines: seq<string>): (ps: seq<string>)
    ensures |ps| <= |lines|
  {
    if lines == [] then []
    else
      var last := TrimSpace(lines[|lines| - 1]);
      KeptPatterns(lines[..|lines| - 1]) + (if IsPatternLine(last) then [last] else [])
  }

  /** Every kept pattern is a pattern line, and every line that is a pattern
      once trimmed is kept, trimmed. */
  lemma {:induction false} KeptPatternsExactly(lines: seq<string>)
    ensures forall p :: p in KeptPatterns(lines) ==> IsPatternLine(p)
    ensures forall i :: 0 <= i < |lines| && IsPatternLine(TrimSpace(lines[i])) ==>
      TrimSpace(lines[i]) in KeptPatterns(lines)
  {
    if lines != [] {
      var init := lines[..|lines| - 1];
      KeptPatternsExactly(init);
      forall i | 0 <= i < |lines| && IsPatternLine(TrimSpace(lines[i]))
        ensures TrimSpace(lines[i]) in KeptPatterns(lines)
      {
        if i < |init| {
          assert lines[i] == init[i];
        }
      }
    }
  }

  /** Every kept pattern is some line of the file, trimmed; so it has no
      surrounding white space left. */
  lemma {:induction false} KeptPatternSource(lines: seq<string>, p: string)
    requires p in KeptPatterns(lines)
    ensures exists i :: 0 <= i < |lines| && TrimSpace(lines[i]) == p
    ensures TrimSpace(p) == p
  {
    var init := lines[..|lines| - 1];
    TrimSpaceIdempotent(lines[|lines| - 1]);
    if p in KeptPatterns(init) {
      KeptPatternSource(init, p);
      var i :| 0 <= i < |init| && TrimSpace(init[i]) == p;
      assert lines[i] == init[i];
    } else {
      assert TrimSpace(lines[|lines| - 1]) == p;
    }
  }

  /** Lines are handled one at a time and in file order: the patterns of two
      consecutive runs of lines are those of the first followed by those of
      the second. */
  lemma {:induction false} KeptPatternsAppend(a: seq<string>, b: seq<string>)
    ensures KeptPatterns(a + b) == KeptPatterns(a) + KeptPatterns(b)
  {
    if b == [] {
      assert a + b == a;
    } else {
      var init, last := b[..|b| - 1], b[|b| - 1];
      var tail := if IsPatternLine(TrimSpace(last)) then [TrimSpace(last)] else [];
      calc {
        KeptPatterns(a + b);
        { assert a + b == (a + init) + [last]; }
        KeptPatterns((a + init) + [last]);
        { KeptPatternsSnoc(a + init, last); }
        KeptPatterns(a + init) + tail;
        { KeptPatternsAppend(a, init); }
        (KeptPatterns(a) + KeptPatterns(init)) + tail;
        KeptPatterns(a) + (KeptPatterns(init) + tail);
        { KeptPatternsSnoc(init, last); assert init + [last] == b; }
        KeptPatterns(a) + KeptPatterns(b);
      }
    }
  }

  /** One more line appends at most that line, trimmed. */
  lemma KeptPatternsSnoc(lines: seq<string>, line: string)
    ensures KeptPatterns(lines + [line]) == KeptPatterns(lines)
      + (if IsPatternLine(TrimSpace(line)) then [TrimSpace(line)] else [])
  {
    assert (lines + [line])[..|lines|] == lines;
  }

  /** `KeptPatternsSnoc` at a prefix of the file. */
  lemma KeptPatternsStep(lines: seq<string>, i: nat)
    requires i < |lines|
    ensures KeptPatterns(lines[..i + 1]) == KeptPatterns(lines[..i])
      + (if IsPatternLine(TrimSpace(lines[i])) then [TrimSpace(lines[i])] else [])
  {
    assert lines[..i + 1] == lines[..i] + [lines[i]];
    KeptPatternsSnoc(lines[..i], lines[i]);
  }

  /** `loadSyncIgnoreFile`: appends, in file order, every kept line of the
      file to the patterns loaded so far. A missing file is not an error and
      adds nothing; a file that cannot be opened adds nothing and fails; a read
      error fails after the lines before it have been appended. */
  method LoadSyncIgnoreFile(loaded: seq<string>, file: IgnoreFile)
    returns (patterns: seq<string>, err: Option<Error>)
    ensures file.Lines? ==> patterns == loaded + KeptPatterns(file.lines)
    ensures !file.Lines? ==> patterns == loaded
    ensures err == match file
      case Absent => None
      case Unopenable => Some(IgnoreFileUnopenable)
      case Lines(_, readFailed) => if readFailed then Some(IgnoreFileReadFailed) else None
  {
    patterns, err := loaded, None;
    match file {
      case Absent =>
        return;
      case Unopenable =>
        err := Some(IgnoreFileUnopenable);
        return;
      case Lines(lines, readFailed) =>
        var i := 0;
        while i < |lines|
          invariant 0 <= i <= |lines|
          invariant patterns == loaded + KeptPatterns(lines[..i])
        {
          var line := TrimSpace(lines[i]);
          KeptPatternsStep(lines, i);
          i := i + 1;
          if line == "" || line[0] == '#' {
            continue;
          }
          patterns := patterns + [line];
        }
        assert lines[..i] == lines;
        if readFailed {
          err := Some(IgnoreFileReadFailed);
        }
    }
  }

  /** Loading only appends: a path ignored before loading is still ignored
      afterwards. */
  lemma LoadingKeepsIgnored(loaded: seq<string>, lines: seq<string>, path: string)
    requires ShouldIgnore(loaded, path)
    ensures ShouldIgnore(loaded + KeptPatterns(lines), path)
  {
    var i :| 0 <= i < |loaded| && loaded[i] == path;
    assert (loaded + KeptPatterns(lines))[i] == path;
  }

  /** Every pattern line of a loaded file, trimmed, is afterwards ignored. */
  lemma LoadedLineIsIgnored(loaded: seq<string>, lines: seq<string>, i: nat)
    requires i < |lines| && IsPatternLine(TrimSpace(lines[i]))
    ensures ShouldIgnore(loaded + KeptPatterns(lines), TrimSpace(lines[i]))
  {
    var ps := KeptPatterns(lines);
    KeptPatternsExactly(lines);
    var j :| 0 <= j < |ps| && ps[j] == TrimSpace(lines[i]);
    assert (loaded + ps)[|loaded| + j] == TrimSpace(lines[i]);
  }

  /** Loading a file that holds exactly the loaded patterns, one per line,
      yields the same patterns again. */
  lemma {:induction false} KeptPatternsStable(lines: seq<string>)
    ensures KeptPatterns(KeptPatterns(lines)) == KeptPatterns(lines)
  {
    if lines != [] {
      var init := lines[..|lines| - 1];
      var last := TrimSpace(lines[|lines| - 1]);
      KeptPatternsStable(init);
      TrimSpaceIdempotent(lines[|lines| - 1]);
      var ps := KeptPatterns(lines);
      if IsPatternLine(last) {
        assert ps == KeptPatterns(init) + [last];
        assert ps[..|ps| - 1] == KeptPatterns(init);
      } else {
        assert ps == KeptPatterns(init);
      }
    }
  }

  /** The cases of main_unit_test.go's shouldIgnore suite. */
  lemma ShouldIgnoreExamples()
    ensures var ps := ["*.log", "temp/", ".git/", "node_modules/"];
      ShouldIgnore(ps, "*.log") && ShouldIgnore(ps, "node_modules/")
      && !ShouldIgnore(ps, "src/main.go") && !ShouldIgnore(ps, "file.log.bak")
      && !ShouldIgnore(ps, "temps/")
    ensures !ShouldIgnore([], "anything.txt")
    ensures ShouldIgnore(["Test.txt"], "Test.txt") && !ShouldIgnore(["Test.txt"], "test.txt")
  {
    var ps := ["*.log", "temp/", ".git/", "node_modules/"];
    assert ps[0] == "*.log" && ps[3] == "node_modules/";
    assert ["Test.txt"][0] == "Test.txt";
  }
}
