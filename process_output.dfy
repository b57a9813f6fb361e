/**
 * `track_process`: reads a child process's stdout line by line, accumulating
 * everything read, until the accumulated text contains a success marker,
 * an optional deadline has passed, or the output is drained and the process
 * has exited.
 *
 * The process is a `Process` object whose read position advances as lines are
 * read; the wall clock is a start reading plus one reading per line read,
 * passed in as values.
 */
module ProcessOutput {
  import opened Wrappers
  import opened PyStr

  /** A running child process as `track_process` sees it: `poll()` and `stdout.readline()`. */
  class Process {
    /** Everything the process writes to stdout, line by line, each line with its newline. */
    const lines: seq<string>
    /** How many of those lines have been read. */
    var pos: nat
    var stdoutClosed: bool

    ghost predicate Valid()
      reads this
    {
      pos <= |lines| && forall i :: 0 <= i < |lines| ==> lines[i] != ""
    }

    constructor (out: seq<string>)
      requires forall i :: 0 <= i < |out| ==> out[i] != ""
      ensures Valid() && lines == out && pos == 0 && !stdoutClosed
    {
      lines := out;
      pos := 0;
      stdoutClosed := false;
    }

    /** `process.poll() is not None`: the process has exited once its output is drained. */
    predicate Exited()
      reads this
    {
      pos == |lines|
    }

    /** `process.stdout.readline()`: the next line, or "" at the end of the stream. */
    method ReadLine() returns (line: string)
      requires Valid() && !stdoutClosed
      modifies this`pos
      ensures Valid()
      ensures old(pos) < |lines| ==> line == lines[old(pos)] && pos == old(pos) + 1
      ensures old(pos) == |lines| ==> line == "" && pos == old(pos)
    {
      if pos < |lines| {
        line := lines[pos];
        pos := pos + 1;
      } else {
        line := "";
      }
    }

    /** `process.stdout.close()`. */
    method CloseStdout()
      modifies this`stdoutClosed
      ensures stdoutClosed
    {
      stdoutClosed := true;
    }
  }

  /** The lines, concatenated in order. */
  function Concat(lines: seq<string>): string
    decreases |lines|
  {
    if |lines| == 0 then "" else Concat(lines[..|lines| - 1]) + lines[|lines| - 1]
  }

  /** What one watch reports: the flag, the captured text, and how many lines it read. */
  datatype Watched = Watched(succeeded: bool, output: string, consumed: nat)

  /**
   * The value the source's `timeout` variable holds while the loop runs: 0 for
   * "no deadline", otherwise the start reading plus the timeout.
   */
  function Deadline(timeout: real, start: real): real
  {
    if timeout != 0.0 then start + timeout else 0.0
  }

  /** The deadline check after line k: a deadline is set and the clock read after line k is past it. */
  predicate TimedOut(deadline: real, clock: seq<real>, k: nat)
    requires k < |clock|
  {
    deadline != 0.0 && clock[k] > deadline
  }

  /** The text read up to and including line k contains the marker. */
  predicate MarkerBy(lines: seq<string>, marker: string, k: nat)
    requires k < |lines|
  {
    Contains(Concat(lines[..k + 1]), marker)
  }

  /** The watch from line i on, with acc the text read before line i. */
  function WatchFrom(lines: seq<string>, marker: string, deadline: real, clock: seq<real>,
                     i: nat, acc: string): Watched
    requires i <= |lines| <= |clock|
    decreases |lines| - i
  {
    if i == |lines| then Watched(false, acc, i)
    else
      var acc' := acc + lines[i];
      if Contains(acc', marker) then Watched(true, acc', i + 1)
      else if TimedOut(deadline, clock, i) then Watched(false, acc', i + 1)
      else WatchFrom(lines, marker, deadline, clock, i + 1, acc')
  }

  /** The watch of a whole output, started at clock reading `start`. */
  function Watch(lines: seq<string>, marker: string, timeout: real, start: real, clock: seq<real>): Watched
    requires |lines| <= |clock|
  {
    WatchFrom(lines, marker, Deadline(timeout, start), clock, 0, "")
  }

  /**
   * `track_process(config, process, success_str, timeout)`: `clock[k]` is the
   * reading `time.time()` gives after the k-th line this call reads.
   */
  method TrackProcess(process: Process, successStr: string, timeout: real, start: real, clock: seq<real>)
    returns (result: bool, finalOutput: string)
    requires process.Valid() && !process.stdoutClosed
    requires |process.lines| - process.pos <= |clock|
    modifies process
    ensures process.Valid()
    ensures var w := Watch(old(process.lines[process.pos..]), successStr, timeout, start, clock);
      result == w.succeeded && finalOutput == w.output &&
      process.pos == old(process.pos) + w.consumed && process.stdoutClosed == result
  {
    result := false;
    finalOutput := "";
    var output: Option<string> := None;
    var deadline := if timeout != 0.0 then start + timeout else 0.0;
    ghost var unread := process.lines[process.pos..];
    ghost var w := Watch(unread, successStr, timeout, start, clock);
    var n := 0;
    while true
      invariant process.Valid() && !process.stdoutClosed
      invariant n <= |unread| && process.pos == old(process.pos) + n
      invariant output == Some("") ==> process.pos == |process.lines|
      invariant WatchFrom(unread, successStr, deadline, clock, n, finalOutput) == w
      decreases |process.lines| - process.pos, if output == Some("") then 0 else 1
    {
      if process.Exited() && output == Some("") {
        break;
      }
      var line := process.ReadLine();
      output := Some(line);
      if line != "" {
        assert line == unread[n];
        finalOutput := finalOutput + line;
        n := n + 1;
        CountPositiveIffContains(finalOutput, successStr);
        if Count(finalOutput, successStr) > 0 {
          process.CloseStdout();
          result := true;
          break;
        } else if deadline != 0.0 && clock[n - 1] > deadline {
          break;
        }
      }
    }
  }

  // ---------------------------------------------------------------------
  // What a watch reports
  // ---------------------------------------------------------------------

  lemma ConcatSnoc(lines: seq<string>, k: nat)
    requires k < |lines|
    ensures Concat(lines[..k + 1]) == Concat(lines[..k]) + lines[k]
  {
    assert lines[..k + 1][..k] == lines[..k];
  }

  /**
   * The watch from line i on, given that nothing stopped it before line i:
   * it reads a prefix of the lines, captures exactly their text, passes every
   * line but the last one without stopping, and stops after the last one
   * because of the marker, the deadline, or the end of the output.
   */
  lemma {:induction false} WatchFromShape(lines: seq<string>, marker: string, deadline: real,
                                          clock: seq<real>, i: nat, acc: string)
    requires i <= |lines| <= |clock|
    requires acc == Concat(lines[..i])
    requires forall k :: 0 <= k < i ==> !MarkerBy(lines, marker, k) && !TimedOut(deadline, clock, k)
    ensures var w := WatchFrom(lines, marker, deadline, clock, i, acc);
      i <= w.consumed <= |lines| && (i < |lines| ==> i < w.consumed) &&
      w.output == Concat(lines[..w.consumed]) &&
      (forall k :: 0 <= k && k + 1 < w.consumed ==> !MarkerBy(lines, marker, k) && !TimedOut(deadline, clock, k)) &&
      (w.succeeded <==> 0 < w.consumed && MarkerBy(lines, marker, w.consumed - 1)) &&
      (w.consumed < |lines| ==> 0 < w.consumed && (MarkerBy(lines, marker, w.consumed - 1) || TimedOut(deadline, clock, w.consumed - 1)))
    decreases |lines| - i
  {
    if i < |lines| {
      ConcatSnoc(lines, i);
      var acc' := acc + lines[i];
      if !Contains(acc', marker) && !TimedOut(deadline, clock, i) {
        WatchFromShape(lines, marker, deadline, clock, i + 1, acc');
      }
    }
  }

  /** The shape of a whole watch. */
  lemma WatchShape(lines: seq<string>, marker: string, timeout: real, start: real, clock: seq<real>)
    requires |lines| <= |clock|
    ensures var w, d := Watch(lines, marker, timeout, start, clock), Deadline(timeout, start);
      w.consumed <= |lines| && (0 < |lines| ==> 0 < w.consumed) &&
      w.output == Concat(lines[..w.consumed]) &&
      (forall k :: 0 <= k && k + 1 < w.consumed ==> !MarkerBy(lines, marker, k) && !TimedOut(d, clock, k)) &&
      (w.succeeded <==> 0 < w.consumed && MarkerBy(lines, marker, w.consumed - 1)) &&
      (w.consumed < |lines| ==> 0 < w.consumed && (MarkerBy(lines, marker, w.consumed - 1) || TimedOut(d, clock, w.consumed - 1)))
  {
    assert lines[..0] == [];
    WatchFromShape(lines, marker, Deadline(timeout, start), clock, 0, "");
  }

  /**
   * Success exactly when the captured text contains the marker; the watch then
   * stopped at the first line that completed it, and the capture ends with that line.
   */
  lemma WatchSucceedsAtFirstMarker(lines: seq<string>, marker: string, timeout: real, start: real, clock: seq<real>)
    requires |lines| <= |clock|
    ensures var w := Watch(lines, marker, timeout, start, clock);
      (w.succeeded <==> 0 < w.consumed && Contains(w.output, marker)) &&
      (w.succeeded ==>
         0 < w.consumed <= |lines| &&
         w.output == Concat(lines[..w.consumed - 1]) + lines[w.consumed - 1] &&
         forall k :: 0 <= k && k + 1 < w.consumed ==> !MarkerBy(lines, marker, k))
  {
    WatchShape(lines, marker, timeout, start, clock);
    var w := Watch(lines, marker, timeout, start, clock);
    if 0 < w.consumed {
      ConcatSnoc(lines, w.consumed - 1);
    }
  }

  /** A marker completed by line k is found by the time line k is read, unless a deadline check stopped the watch earlier; a deadline passing at line k itself does not matter. */
  lemma WatchFindsMarker(lines: seq<string>, marker: string, timeout: real, start: real, clock: seq<real>, k: nat)
    requires |lines| <= |clock| && k < |lines|
    requires MarkerBy(lines, marker, k)
    requires forall j :: 0 <= j < k ==> !TimedOut(Deadline(timeout, start), clock, j)
    ensures Watch(lines, marker, timeout, start, clock).succeeded
    ensures Watch(lines, marker, timeout, start, clock).consumed <= k + 1
  {
    WatchShape(lines, marker, timeout, start, clock);
  }

  /** An output that never contains the marker is not a success; read to its end, it is captured whole. */
  lemma WatchDrained(lines: seq<string>, marker: string, timeout: real, start: real, clock: seq<real>)
    requires |lines| <= |clock|
    requires !Contains(Concat(lines), marker)
    ensures var w := Watch(lines, marker, timeout, start, clock);
      !w.succeeded && (w.consumed == |lines| ==> w.output == Concat(lines))
  {
    WatchShape(lines, marker, timeout, start, clock);
    var w := Watch(lines, marker, timeout, start, clock);
    assert lines[..|lines|] == lines;
    if w.succeeded {
      MarkerPersists(lines, marker, w.consumed - 1, |lines|);
    }
  }

  /** Once the text read contains the marker, every longer prefix does too. */
  lemma {:induction false} MarkerPersists(lines: seq<string>, marker: string, k: nat, n: nat)
    requires k < n <= |lines| && MarkerBy(lines, marker, k)
    ensures Contains(Concat(lines[..n]), marker)
    decreases n - k
  {
    if n > k + 1 {
      MarkerPersists(lines, marker, k, n - 1);
      ConcatSnoc(lines, n - 1);
      ContainsAppend(Concat(lines[..n - 1]), lines[n - 1], marker);
    }
  }

  /** A watch that stops before the end of the output without success was stopped by the deadline. */
  lemma WatchTimesOut(lines: seq<string>, marker: string, timeout: real, start: real, clock: seq<real>)
    requires |lines| <= |clock|
    ensures var w := Watch(lines, marker, timeout, start, clock);
      !w.succeeded && w.consumed < |lines| ==>
        timeout != 0.0 && 0 < w.consumed && clock[w.consumed - 1] > start + timeout &&
        !Contains(w.output, marker) &&
        forall k :: 0 <= k && k + 1 < w.consumed ==> clock[k] <= start + timeout
  {
    WatchShape(lines, marker, timeout, start, clock);
    var w, d := Watch(lines, marker, timeout, start, clock), Deadline(timeout, start);
    if !w.succeeded && w.consumed < |lines| {
      assert TimedOut(d, clock, w.consumed - 1);
      assert d == start + timeout;
      forall k | 0 <= k && k + 1 < w.consumed
        ensures clock[k] <= start + timeout
      {
        assert !TimedOut(d, clock, k);
      }
    }
  }

  /** With timeout 0 the watch never stops on time: it succeeds exactly when the whole output contains the marker, and otherwise reads it all. */
  lemma WatchWithoutTimeout(lines: seq<string>, marker: string, start: real, clock: seq<real>)
    requires |lines| <= |clock|
    ensures var w := Watch(lines, marker, 0.0, start, clock);
      (w.succeeded || w.consumed == |lines|) &&
      (w.succeeded <==> 0 < |lines| && Contains(Concat(lines), marker)) &&
      (!w.succeeded ==> w.output == Concat(lines))
  {
    WatchShape(lines, marker, 0.0, start, clock);
    var w := Watch(lines, marker, 0.0, start, clock);
    assert lines[..|lines|] == lines;
    if w.succeeded {
      MarkerPersists(lines, marker, w.consumed - 1, |lines|);
    }
  }

  /** With timeout 0 neither the start reading nor the clock affects the watch. */
  lemma {:induction false} WatchIgnoresClockWithoutTimeout(lines: seq<string>, marker: string,
                                                           start1: real, clock1: seq<real>,
                                                           start2: real, clock2: seq<real>)
    requires |lines| <= |clock1| && |lines| <= |clock2|
    ensures Watch(lines, marker, 0.0, start1, clock1) == Watch(lines, marker, 0.0, start2, clock2)
  {
    WatchFromSameWithoutDeadline(lines, marker, clock1, clock2, 0, "");
  }

  lemma {:induction false} WatchFromSameWithoutDeadline(lines: seq<string>, marker: string,
                                                        clock1: seq<real>, clock2: seq<real>,
                                                        i: nat, acc: string)
    requires i <= |lines| && |lines| <= |clock1| && |lines| <= |clock2|
    ensures WatchFrom(lines, marker, 0.0, clock1, i, acc) == WatchFrom(lines, marker, 0.0, clock2, i, acc)
    decreases |lines| - i
  {
    if i < |lines| {
      WatchFromSameWithoutDeadline(lines, marker, clock1, clock2, i + 1, acc + lines[i]);
    }
  }

  /** An empty marker is in every text, so the first line read ends the watch with success. */
  lemma WatchEmptyMarker(lines: seq<string>, timeout: real, start: real, clock: seq<real>)
    requires 0 < |lines| <= |clock|
    ensures Watch(lines, "", timeout, start, clock) == Watched(true, lines[0], 1)
  {
    assert "" <= "" + lines[0];
  }

  /** One line that passes both checks: the watch goes on with the next line. */
  lemma WatchFromPasses(lines: seq<string>, marker: string, deadline: real, clock: seq<real>, i: nat, acc: string)
    requires i < |lines| <= |clock|
    requires !Contains(acc + lines[i], marker) && !TimedOut(deadline, clock, i)
    ensures WatchFrom(lines, marker, deadline, clock, i, acc) == WatchFrom(lines, marker, deadline, clock, i + 1, acc + lines[i])
  {
  }

  /** The line that completes the marker ends the watch with success. */
  lemma WatchFromMatches(lines: seq<string>, marker: string, deadline: real, clock: seq<real>, i: nat, acc: string)
    requires i < |lines| <= |clock|
    requires Contains(acc + lines[i], marker)
    ensures WatchFrom(lines, marker, deadline, clock, i, acc) == Watched(true, acc + lines[i], i + 1)
  {
  }

  /**
   * A marker first completed by the second line, alone or together with the
   * end of the first, ends the watch there when the first line's deadline check
   * passes: success, the output holds the two lines read, and the later lines
   * (a trailing `done`, say) are never read.
   */
  lemma WatchStopsAtMarkerLine(first: string, second: string, later: seq<string>, marker: string,
                               timeout: real, start: real, clock: seq<real>)
    requires !Contains(first, marker) && Contains(first + second, marker)
    requires 2 + |later| <= |clock|
    requires !TimedOut(Deadline(timeout, start), clock, 0)
    ensures Watch([first, second] + later, marker, timeout, start, clock) == Watched(true, first + second, 2)
  {
    var lines := [first, second] + later;
    assert lines[0] == first && lines[1] == second;
    assert "" + first == first;
    WatchFromPasses(lines, marker, Deadline(timeout, start), clock, 0, "");
    WatchFromMatches(lines, marker, Deadline(timeout, start), clock, 1, first);
  }
}
