/**
 * `ensureCleanWorkingDirectory`: the output of `git status --porcelain`,
 * trimmed and split into lines, is clean when every line is empty or starts
 * with `?` (an untracked file).
 */
module WorkingTree {
  import opened Wrappers
  import opened Strings

  predicate LineAllowed(line: string)
  {
    line == "" || StartsWith(line, "?")
  }

  /** The test `utils.js` applies to the status output. */
  predicate IsClean(output: string)
  {
    var lines := Split(Trim(output), '\n');
    forall i :: 0 <= i < |lines| ==> LineAllowed(lines[i])
  }

  const NotCleanMessage: string := "Working directory is not clean. Please commit or stash your changes."

  /** The message printed before the process exits, if any. */
  function EnsureCleanWorkingDirectory(output: string): (r: Option<string>)
    ensures r.None? <==> IsClean(output)
    ensures r.Some? ==> r.value == NotCleanMessage
  {
    if IsClean(output) then None else Some(NotCleanMessage)
  }

  /** Position `j` of `t` begins a line. */
  predicate LineStart(t: string, j: nat)
  {
    j == 0 || (0 < j <= |t| && t[j - 1] == '\n')
  }

  /**
   * The same test read off the characters: wherever a line begins, the
   * character there is a line break (an empty line) or `?`.
   */
  predicate LineStartsAllowed(t: string)
  {
    forall j :: 0 <= j < |t| && LineStart(t, j) ==> t[j] == '\n' || t[j] == '?'
  }

  /** The first line of `v` is allowed exactly when `v` is empty or begins with a line break or `?`. */
  lemma FirstLine(v: string)
    ensures LineAllowed(Split(v, '\n')[0]) <==> v == [] || v[0] == '\n' || v[0] == '?'
  {
    if v != [] && v[0] != '\n' {
      assert Split(v, '\n')[0][0] == v[0];
    }
  }

  predicate AllAllowed(lines: seq<string>)
  {
    forall i :: 0 <= i < |lines| ==> LineAllowed(lines[i])
  }

  /** Every line start after position 0 holds a line break or `?`. */
  predicate LaterStartsAllowed(u: string)
  {
    forall j :: 1 <= j < |u| && u[j - 1] == '\n' ==> u[j] == '\n' || u[j] == '?'
  }

  lemma AllAllowedCons(lines: seq<string>)
    requires |lines| >= 1
    ensures AllAllowed(lines) <==> LineAllowed(lines[0]) && AllAllowed(lines[1..])
  {
    if LineAllowed(lines[0]) && AllAllowed(lines[1..]) {
      forall i | 0 <= i < |lines| ensures LineAllowed(lines[i]) {
        if i > 0 {
          assert lines[i] == lines[1..][i - 1];
        }
      }
    }
  }

  /** Dropping the first character moves every later line start one place to the left. */
  lemma LaterStartsShift(u: string)
    requires u != []
    ensures LaterStartsAllowed(u)
            <==> (u[0] == '\n' ==> |u| == 1 || u[1] == '\n' || u[1] == '?') && LaterStartsAllowed(u[1..])
  {
    var v := u[1..];
    if LaterStartsAllowed(u) {
      forall j | 1 <= j < |v| && v[j - 1] == '\n' ensures v[j] == '\n' || v[j] == '?' {
        assert u[j] == v[j - 1] && u[j + 1] == v[j];
      }
    }
    if (u[0] == '\n' ==> |u| == 1 || u[1] == '\n' || u[1] == '?') && LaterStartsAllowed(v) {
      forall j | 1 <= j < |u| && u[j - 1] == '\n' ensures u[j] == '\n' || u[j] == '?' {
        if j >= 2 {
          assert u[j - 1] == v[j - 2] && u[j] == v[j - 1];
        }
      }
    }
  }

  /** The lines after the first are allowed exactly when every later line start is. */
  lemma {:induction false} LaterLines(u: string)
    ensures AllAllowed(Split(u, '\n')[1..]) <==> LaterStartsAllowed(u)
    decreases |u|
  {
    if u != [] {
      var v := u[1..];
      LaterLines(v);
      LaterStartsShift(u);
      var rest := Split(v, '\n');
      if u[0] == '\n' {
        assert Split(u, '\n')[1..] == rest;
        FirstLine(v);
        AllAllowedCons(rest);
      } else {
        assert Split(u, '\n')[1..] == rest[1..];
      }
    }
  }

  /** The status output is clean exactly when every line of its trimmed form begins with a line break or `?`. */
  lemma CleanByLineStarts(output: string)
    ensures IsClean(output) <==> LineStartsAllowed(Trim(output))
  {
    var t := Trim(output);
    var lines := Split(t, '\n');
    FirstLine(t);
    LaterLines(t);
    AllAllowedCons(lines);
    assert IsClean(output) <==> AllAllowed(lines);
    assert LineStartsAllowed(t) <==> (t == [] || t[0] == '\n' || t[0] == '?') && LaterStartsAllowed(t);
  }

  /** No output at all is a clean tree. */
  lemma EmptyIsClean(output: string)
    requires forall i :: 0 <= i < |output| ==> IsJsWhitespace(output[i])
    ensures IsClean(output)
  {
    CleanByLineStarts(output);
  }

  /** A line of the trimmed output that starts with anything but `?` (a tracked change) makes the tree dirty. */
  lemma TrackedChangeIsDirty(output: string, j: nat)
    requires j < |Trim(output)| && LineStart(Trim(output), j)
    requires Trim(output)[j] != '?' && Trim(output)[j] != '\n'
    ensures !IsClean(output)
  {
    CleanByLineStarts(output);
  }

  /**
   * Porcelain output made only of lines for untracked files, each ending in
   * a line break, is clean.
   */
  lemma UntrackedOnlyIsClean(lines: seq<string>)
    requires forall i :: 0 <= i < |lines| ==> UntrackedLine(lines[i])
    ensures IsClean(Join(lines, '\n') + ['\n'])
  {
    JoinedLinesStarts(lines);
    QuestionLinesClean(Join(lines, '\n'));
  }

  /** Text that begins a line only with `?` and does not end in whitespace is clean once a line break is added. */
  lemma QuestionLinesClean(s: string)
    requires s == [] || (s[0] == '?' && !IsJsWhitespace(s[|s| - 1]))
    requires forall j :: 0 <= j < |s| && LineStart(s, j) ==> s[j] == '?'
    ensures IsClean(s + ['\n'])
  {
    assert s == [] || (!IsJsWhitespace(s[0]) && !IsJsWhitespace(s[|s| - 1]));
    TrimFinalNewline(s);
    AllStartsAllowed(s);
    CleanWhenTrimmed(s + ['\n'], s);
  }

  /** Text whose every line begins with `?` passes the per-line test. */
  lemma AllStartsAllowed(s: string)
    requires forall j :: 0 <= j < |s| && LineStart(s, j) ==> s[j] == '?'
    ensures LineStartsAllowed(s)
  {
  }

  /** The test depends only on the trimmed output. */
  lemma CleanWhenTrimmed(output: string, t: string)
    requires Trim(output) == t && LineStartsAllowed(t)
    ensures IsClean(output)
  {
    CleanByLineStarts(output);
  }

  /** A porcelain line for an untracked file: `?` first, no line break, no trailing whitespace. */
  predicate UntrackedLine(line: string)
  {
    StartsWith(line, "?") && '\n' !in line && !IsJsWhitespace(line[|line| - 1])
  }

  /** Joining untracked-file lines gives a string that starts with `?` and has `?` after every line break. */
  lemma {:induction false} JoinedLinesStarts(lines: seq<string>)
    requires forall i :: 0 <= i < |lines| ==> UntrackedLine(lines[i])
    ensures var s := Join(lines, '\n');
            (s == [] || (s[0] == '?' && !IsJsWhitespace(s[|s| - 1])))
            && forall j :: 0 <= j < |s| && LineStart(s, j) ==> s[j] == '?'
    decreases |lines|
  {
    if |lines| >= 2 {
      JoinedLinesStarts(lines[1..]);
      JoinCons(lines, '\n');
      var a := lines[0];
      var b := Join(lines[1..], '\n');
      var s := a + ['\n'] + b;
      forall j | 0 <= j < |s| && LineStart(s, j) ensures s[j] == '?' {
        if j == 0 {
          assert s[0] == a[0];
        } else if j > |a| {
          assert j == |a| + 1 || (s[j - 1] == b[j - |a| - 2] && LineStart(b, j - |a| - 1));
          assert s[j] == b[j - |a| - 1];
        }
      }
    }
  }
}
