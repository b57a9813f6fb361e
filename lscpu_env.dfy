/**
 * `set_threads_cnt_env_var`: scans the lines of `lscpu` output for four CPU
 * topology counters, stops as soon as all four are non-zero, and writes
 * CORES_COUNT, THREADS_CNT, CORES_PER_SOCKET and SOCKETS into the process
 * environment.  The `lscpu` output is passed in as text and the environment
 * as a map; the scan fails, leaving the environment untouched, where Python's
 * `int()` raises.
 */
module LscpuEnv {
  import opened Wrappers
  import opened PyStr

  const CpusKey := "CPU(s):"
  const CoresPerSocketKey := "Core(s) per socket:"
  const ThreadsPerCoreKey := "Thread(s) per core:"
  const SocketsKey := "Socket(s):"

  /** The four loop variables of the scan. */
  datatype Counters = Counters(coresCount: int, corePerSocket: int, threadsPerCore: int, sockets: int)

  const Zero := Counters(0, 0, 0, 0)

  /** `cores_count and core_per_socket and threads_per_core and sockets`: all four non-zero. */
  predicate AllSet(c: Counters)
  {
    c.coresCount != 0 && c.corePerSocket != 0 && c.threadsPerCore != 0 && c.sockets != 0
  }

  /** Python's ValueError from `int()`, with the literal it could not read. */
  datatype ValueError = ValueError(literal: string)

  /** `int(line.split(':')[-1].strip())`. */
  function FieldValue(line: string): Result<int, ValueError>
  {
    var literal := Strip(LastField(line, ':'));
    match PyInt(literal)
    case Some(v) => Ok(v)
    case None => Err(ValueError(literal))
  }

  predicate MentionsKey(line: string)
  {
    Contains(line, CpusKey) || Contains(line, CoresPerSocketKey) ||
    Contains(line, ThreadsPerCoreKey) || Contains(line, SocketsKey)
  }

  /**
   * The four `if`s of one loop iteration: every counter whose key the line
   * contains takes the line's value, which fails for the first such key
   * when the value is not an integer literal.
   */
  function Step(c: Counters, line: string): Result<Counters, ValueError>
  {
    if !MentionsKey(line) then Ok(c)
    else
      match FieldValue(line)
      case Err(e) => Err(e)
      case Ok(v) =>
        Ok(Counters(
          if Contains(line, CpusKey) then v else c.coresCount,
          if Contains(line, CoresPerSocketKey) then v else c.corePerSocket,
          if Contains(line, ThreadsPerCoreKey) then v else c.threadsPerCore,
          if Contains(line, SocketsKey) then v else c.sockets))
  }

  /** The counters after every line of ls, with no early exit: the first failure wins. */
  function Fold(ls: seq<string>): Result<Counters, ValueError>
    decreases |ls|
  {
    if |ls| == 0 then Ok(Zero)
    else
      match Fold(ls[..|ls| - 1])
      case Err(e) => Err(e)
      case Ok(c) => Step(c, ls[|ls| - 1])
  }

  /** The loop from line i on, with counters c, stopping once all four are set. */
  function ScanFrom(lines: seq<string>, i: nat, c: Counters): Result<Counters, ValueError>
    requires i <= |lines|
    decreases |lines| - i
  {
    if i == |lines| then Ok(c)
    else
      match Step(c, lines[i])
      case Err(e) => Err(e)
      case Ok(c') => if AllSet(c') then Ok(c') else ScanFrom(lines, i + 1, c')
  }

  /** The whole loop over the lines. */
  function Scan(lines: seq<string>): Result<Counters, ValueError>
  {
    ScanFrom(lines, 0, Zero)
  }

  /** After its first n lines all four counters are set, so the loop breaks there at the latest. */
  predicate StopsAfter(lines: seq<string>, n: nat)
    requires n <= |lines|
  {
    0 < n && Fold(lines[..n]).Ok? && AllSet(Fold(lines[..n]).value)
  }

  /** The least m >= n at which the loop breaks, or |lines| if it does not. */
  function FirstStop(lines: seq<string>, n: nat): (m: nat)
    requires 0 < n
    ensures m <= |lines|
    decreases |lines| + 1 - n
  {
    if n > |lines| then |lines|
    else if StopsAfter(lines, n) then n
    else FirstStop(lines, n + 1)
  }

  /** How many lines the loop reads. */
  function StopIndex(lines: seq<string>): nat
  {
    FirstStop(lines, 1)
  }

  // ---------------------------------------------------------------------
  // The scan is the fold of the lines it reads
  // ---------------------------------------------------------------------

  lemma FoldSnoc(ls: seq<string>, i: nat)
    requires i < |ls|
    ensures Fold(ls[..i + 1]) == match Fold(ls[..i]) case Err(e) => Err(e) case Ok(c) => Step(c, ls[i])
  {
    assert ls[..i + 1][..i] == ls[..i];
  }

  /** A failure in a prefix is the failure of every longer prefix. */
  lemma {:induction false} FoldErrPersists(ls: seq<string>, n: nat, m: nat)
    requires n <= m <= |ls| && Fold(ls[..n]).Err?
    ensures Fold(ls[..m]) == Fold(ls[..n])
    decreases m - n
  {
    if n < m {
      FoldErrPersists(ls, n, m - 1);
      FoldSnocErr(ls, m - 1);
    }
  }

  /** A failed prefix stays failed, with the same error, when one more line is added. */
  lemma FoldSnocErr(ls: seq<string>, i: nat)
    requires i < |ls| && Fold(ls[..i]).Err?
    ensures Fold(ls[..i + 1]) == Fold(ls[..i])
  {
    assert ls[..i + 1][..i] == ls[..i];
  }

  /** After a failure the loop never breaks. */
  lemma {:induction false} FirstStopAfterErr(lines: seq<string>, n: nat)
    requires 0 < n && n - 1 <= |lines| && Fold(lines[..n - 1]).Err?
    ensures FirstStop(lines, n) == |lines|
    decreases |lines| + 1 - n
  {
    if n <= |lines| {
      FoldErrPersists(lines, n - 1, n);
      FirstStopAfterErr(lines, n + 1);
    }
  }

  lemma {:induction false} ScanFromIsFold(lines: seq<string>, i: nat, c: Counters)
    requires i <= |lines| && Fold(lines[..i]) == Ok(c)
    requires i == 0 || !AllSet(c)
    ensures ScanFrom(lines, i, c) == Fold(lines[..FirstStop(lines, i + 1)])
    decreases |lines| - i
  {
    if i == |lines| {
      assert lines[..|lines|] == lines;
    } else {
      FoldSnoc(lines, i);
      match Step(c, lines[i])
      case Err(e) => {
        FirstStopAfterErr(lines, i + 2);
        assert lines[..|lines|] == lines;
        FoldErrPersists(lines, i + 1, |lines|);
      }
      case Ok(c') => {
        if !AllSet(c') {
          ScanFromIsFold(lines, i + 1, c');
        }
      }
    }
  }

  /** The loop's result is the fold of exactly the lines it reads before it breaks. */
  lemma ScanIsFoldOfReadLines(lines: seq<string>)
    ensures Scan(lines) == Fold(lines[..StopIndex(lines)])
  {
    assert lines[..0] == [];
    ScanFromIsFold(lines, 0, Zero);
  }

  lemma {:induction false} FirstStopOfExtension(pre: seq<string>, rest: seq<string>, n: nat)
    requires 0 < n <= |pre| && StopsAfter(pre, |pre|)
    ensures FirstStop(pre + rest, n) == FirstStop(pre, n) <= |pre|
    decreases |pre| - n
  {
    assert (pre + rest)[..n] == pre[..n];
    if n < |pre| && !StopsAfter(pre, n) {
      FirstStopOfExtension(pre, rest, n + 1);
    }
  }

  /** Early exit: once the lines read so far set all four counters, later lines cannot affect the result. */
  lemma ScanIgnoresLaterLines(pre: seq<string>, rest: seq<string>)
    requires 0 < |pre| && StopsAfter(pre, |pre|)
    ensures Scan(pre + rest) == Scan(pre)
  {
    FirstStopOfExtension(pre, rest, 1);
    ScanIsFoldOfReadLines(pre);
    ScanIsFoldOfReadLines(pre + rest);
    var k := StopIndex(pre);
    assert (pre + rest)[..k] == pre[..k];
  }

  // ---------------------------------------------------------------------
  // What the counters hold
  // ---------------------------------------------------------------------

  /** The value after the last `:` of the most recent line of ls that contains key, or 0 if none does. */
  function Latest(ls: seq<string>, key: string): int
    decreases |ls|
  {
    if |ls| == 0 then 0
    else if Contains(ls[|ls| - 1], key) then
      match FieldValue(ls[|ls| - 1])
      case Ok(v) => v
      case Err(_) => 0
    else Latest(ls[..|ls| - 1], key)
  }

  /** A line that mentions a key and whose value `int()` rejects. */
  predicate BadLine(line: string)
  {
    MentionsKey(line) && FieldValue(line).Err?
  }

  /** Each counter holds the value of the most recent line with its key; keys that never appear leave it 0. */
  lemma {:induction false} FoldIsLatest(ls: seq<string>)
    requires Fold(ls).Ok?
    ensures Fold(ls).value == Counters(Latest(ls, CpusKey), Latest(ls, CoresPerSocketKey),
                                       Latest(ls, ThreadsPerCoreKey), Latest(ls, SocketsKey))
    decreases |ls|
  {
    if |ls| > 0 {
      FoldIsLatest(ls[..|ls| - 1]);
    }
  }

  /** One line fails exactly when it is bad, with that line's literal. */
  lemma StepFailsOnBadLine(c: Counters, line: string)
    ensures Step(c, line).Err? <==> BadLine(line)
    ensures BadLine(line) ==> Step(c, line) == Err(FieldValue(line).error)
  {
  }

  /** The index of the first bad line of ls, or |ls| if there is none. */
  function FirstBad(ls: seq<string>): (j: nat)
    ensures j <= |ls|
    ensures forall i :: 0 <= i < j ==> !BadLine(ls[i])
    ensures j < |ls| ==> BadLine(ls[j])
    decreases |ls|
  {
    if |ls| == 0 then 0
    else
      var j := FirstBad(ls[..|ls| - 1]);
      assert forall i :: 0 <= i < |ls| - 1 ==> ls[..|ls| - 1][i] == ls[i];
      if j < |ls| - 1 then j
      else if BadLine(ls[|ls| - 1]) then |ls| - 1
      else |ls|
  }

  /** The fold fails exactly when some line is bad, and then with the literal of the first bad line. */
  lemma {:induction false} FoldFailsAtFirstBadLine(ls: seq<string>)
    ensures Fold(ls).Err? <==> FirstBad(ls) < |ls|
    ensures Fold(ls).Err? ==> Fold(ls) == Err(FieldValue(ls[FirstBad(ls)]).error)
    decreases |ls|
  {
    if |ls| > 0 {
      var init, last := ls[..|ls| - 1], ls[|ls| - 1];
      FoldFailsAtFirstBadLine(init);
      var j := FirstBad(init);
      assert FirstBad(ls) == if j < |init| then j else if BadLine(last) then |init| else |ls|;
      match Fold(init)
      case Err(e) => {
        assert j < |init| && init[j] == ls[j];
        assert Fold(ls) == Err(e);
      }
      case Ok(c) => {
        assert j == |init|;
        StepFailsOnBadLine(c, last);
        assert Fold(ls) == Step(c, last);
      }
    }
  }

  // ---------------------------------------------------------------------
  // The environment update
  // ---------------------------------------------------------------------

  const EnvKeys := {"CORES_COUNT", "THREADS_CNT", "CORES_PER_SOCKET", "SOCKETS"}

  /** The four `os.environ[...] = str(...)` assignments. */
  function Export(env: map<string, string>, c: Counters): map<string, string>
  {
    env["CORES_COUNT" := Str(c.coresCount)]
       ["THREADS_CNT" := Str(c.corePerSocket * c.threadsPerCore)]
       ["CORES_PER_SOCKET" := Str(c.corePerSocket)]
       ["SOCKETS" := Str(c.sockets)]
  }

  /**
   * Exactly the four entries are written, THREADS_CNT as cores per socket
   * times threads per core, each as `str()` of its value (which `int()` reads
   * back, by PyIntStr); every other entry is unchanged.
   */
  lemma ExportWritesFourEntries(env: map<string, string>, c: Counters)
    ensures var e := Export(env, c);
      e.Keys == env.Keys + EnvKeys &&
      (forall k :: k in env && k !in EnvKeys ==> e[k] == env[k]) &&
      e["CORES_COUNT"] == Str(c.coresCount) &&
      e["THREADS_CNT"] == Str(c.corePerSocket * c.threadsPerCore) &&
      e["CORES_PER_SOCKET"] == Str(c.corePerSocket) &&
      e["SOCKETS"] == Str(c.sockets)
  {
  }

  /** `set_threads_cnt_env_var()`, given the text `exec_shell_cmd('lscpu')` returns (the command's output stripped at both ends) and the environment before the call. */
  method SetThreadsCntEnvVar(lscpuOutput: string, env: map<string, string>)
    returns (r: Result<map<string, string>, ValueError>)
    ensures r == match Scan(SplitLines(lscpuOutput))
                 case Ok(c) => Ok(Export(env, c))
                 case Err(e) => Err(e)
  {
    var lines := SplitLines(lscpuOutput);
    var c := Zero;
    for i := 0 to |lines|
      invariant i == 0 || !AllSet(c)
      invariant ScanFrom(lines, i, c) == Scan(lines)
    {
      var line := lines[i];
      ghost var stepped := Step(c, line);
      if Contains(line, CpusKey) {
        var v := FieldValue(line);
        if v.Err? {
          return Err(v.error);
        }
        c := c.(coresCount := v.value);
      }
      if Contains(line, CoresPerSocketKey) {
        var v := FieldValue(line);
        if v.Err? {
          return Err(v.error);
        }
        c := c.(corePerSocket := v.value);
      }
      if Contains(line, ThreadsPerCoreKey) {
        var v := FieldValue(line);
        if v.Err? {
          return Err(v.error);
        }
        c := c.(threadsPerCore := v.value);
      }
      if Contains(line, SocketsKey) {
        var v := FieldValue(line);
        if v.Err? {
          return Err(v.error);
        }
        c := c.(sockets := v.value);
      }
      assert stepped == Ok(c);
      if AllSet(c) {
        return Ok(Export(env, c));
      }
    }
    r := Ok(Export(env, c));
  }

  /** The environment after a successful call: the four entries hold the counters of the lines read, nothing else changes. */
  lemma SetThreadsCntEnvVarResult(lscpuOutput: string, env: map<string, string>)
    requires Scan(SplitLines(lscpuOutput)).Ok?
    ensures var lines := SplitLines(lscpuOutput);
      var read := lines[..StopIndex(lines)];
      var e := Export(env, Scan(lines).value);
      e.Keys == env.Keys + EnvKeys &&
      (forall k :: k in env && k !in EnvKeys ==> e[k] == env[k]) &&
      e["CORES_COUNT"] == Str(Latest(read, CpusKey)) &&
      e["THREADS_CNT"] == Str(Latest(read, CoresPerSocketKey) * Latest(read, ThreadsPerCoreKey)) &&
      e["CORES_PER_SOCKET"] == Str(Latest(read, CoresPerSocketKey)) &&
      e["SOCKETS"] == Str(Latest(read, SocketsKey))
  {
    var lines := SplitLines(lscpuOutput);
    ScanIsFoldOfReadLines(lines);
    FoldIsLatest(lines[..StopIndex(lines)]);
    ExportWritesFourEntries(env, Scan(lines).value);
  }

  // ---------------------------------------------------------------------
  // Lines as `lscpu` prints them
  // ---------------------------------------------------------------------

  /** Whitespace followed by `str(v)` holds no colon, and `strip()` leaves `str(v)`. */
  lemma PaddedValue(pad: string, v: int)
    requires AllSpace(pad)
    ensures ':' !in pad + Str(v) && Strip(pad + Str(v)) == Str(v)
  {
    StrIsPlain(v);
    var t := Str(v);
    assert ':' !in t;
    ColonFreePadded(pad, t);
    assert !IsSpace(t[0]) && !IsSpace(t[|t| - 1]);
    StripPadded(pad, t);
  }

  /** One field as `lscpu` prints it: indentation, then its key, padding and value. */
  datatype Entry = Entry(indent: string, pad: string, value: int)

  /** The line that prints entry e under key. */
  function Printed(key: string, e: Entry): string
  {
    e.indent + key + e.pad + Str(e.value)
  }

  /** Indentation and padding are whitespace. */
  predicate WellPrinted(e: Entry)
  {
    AllSpace(e.indent) && AllSpace(e.pad)
  }

  /** A line ending in `key:` + whitespace + `str(v)` yields v, whatever precedes the key's colon. */
  lemma FieldValueOfKeyLine(key: string, e: Entry)
    requires 0 < |key| && key[|key| - 1] == ':' && AllSpace(e.pad)
    ensures FieldValue(Printed(key, e)) == Ok(e.value)
  {
    var value := e.pad + Str(e.value);
    var name := e.indent + key[..|key| - 1];
    assert key == key[..|key| - 1] + [':'];
    PaddedValue(e.pad, e.value);
    assert Printed(key, e) == name + [':'] + value;
    LastFieldAfter(name, ':', value);
    PyIntStr(e.value);
  }

  /** A key line contains its key. */
  lemma OwnKeyPresent(key: string, e: Entry)
    ensures Contains(Printed(key, e), key)
  {
    assert Printed(key, e) == e.indent + key + (e.pad + Str(e.value));
    ContainsMiddle(e.indent, key, e.pad + Str(e.value));
  }

  /** ch tells `other` apart from the line of `key`: it is in `other`, but not in `key`, whitespace, a digit or '-'. */
  predicate Distinguishes(ch: char, key: string, other: string)
  {
    ch in other && ch !in key && !IsSpace(ch) && !IsDigit(ch) && ch != '-'
  }

  /** Another key is absent from a key line when some character distinguishes it. */
  lemma OtherKeyAbsent(key: string, e: Entry, other: string, ch: char)
    requires WellPrinted(e) && Distinguishes(ch, key, other)
    ensures !Contains(Printed(key, e), other)
  {
    StrIsPlain(e.value);
    assert ch !in e.indent && ch !in e.pad && ch !in Str(e.value);
    assert ch !in Printed(key, e);
    MissingCharNotContained(Printed(key, e), other, ch);
  }

  // Each key's own line sets its counter and no other: no key is part of another key's line.

  lemma CpusKeyChars()
    ensures Distinguishes('o', CpusKey, CoresPerSocketKey) && Distinguishes('T', CpusKey, ThreadsPerCoreKey) && Distinguishes('S', CpusKey, SocketsKey)
  {
    assert Distinguishes('o', CpusKey, CoresPerSocketKey);
    assert Distinguishes('T', CpusKey, ThreadsPerCoreKey);
    assert Distinguishes('S', CpusKey, SocketsKey);
  }

  lemma ThreadsKeyChars()
    ensures Distinguishes('U', ThreadsPerCoreKey, CpusKey) && Distinguishes('k', ThreadsPerCoreKey, CoresPerSocketKey) && Distinguishes('S', ThreadsPerCoreKey, SocketsKey)
  {
    assert Distinguishes('U', ThreadsPerCoreKey, CpusKey);
    assert Distinguishes('k', ThreadsPerCoreKey, CoresPerSocketKey);
    assert Distinguishes('S', ThreadsPerCoreKey, SocketsKey);
  }

  lemma CoresKeyChars()
    ensures Distinguishes('U', CoresPerSocketKey, CpusKey) && Distinguishes('T', CoresPerSocketKey, ThreadsPerCoreKey) && Distinguishes('S', CoresPerSocketKey, SocketsKey)
  {
    assert Distinguishes('U', CoresPerSocketKey, CpusKey);
    assert Distinguishes('T', CoresPerSocketKey, ThreadsPerCoreKey);
    assert Distinguishes('S', CoresPerSocketKey, SocketsKey);
  }

  lemma SocketsKeyChars()
    ensures Distinguishes('U', SocketsKey, CpusKey) && Distinguishes('C', SocketsKey, CoresPerSocketKey) && Distinguishes('T', SocketsKey, ThreadsPerCoreKey)
  {
    assert Distinguishes('U', SocketsKey, CpusKey);
    assert Distinguishes('C', SocketsKey, CoresPerSocketKey);
    assert Distinguishes('T', SocketsKey, ThreadsPerCoreKey);
  }

  /** `CPU(s):` lines mention no other key. */
  lemma CpusLineKeys(e: Entry)
    requires WellPrinted(e)
    ensures var line := Printed(CpusKey, e);
      Contains(line, CpusKey) && !Contains(line, CoresPerSocketKey) && !Contains(line, ThreadsPerCoreKey) && !Contains(line, SocketsKey)
  {
    CpusKeyChars();
    OwnKeyPresent(CpusKey, e);
    OtherKeyAbsent(CpusKey, e, CoresPerSocketKey, 'o');
    OtherKeyAbsent(CpusKey, e, ThreadsPerCoreKey, 'T');
    OtherKeyAbsent(CpusKey, e, SocketsKey, 'S');
  }

  lemma StepOnCpusLine(c: Counters, e: Entry)
    requires WellPrinted(e)
    ensures Step(c, Printed(CpusKey, e)) == Ok(c.(coresCount := e.value))
  {
    CpusLineKeys(e);
    FieldValueOfKeyLine(CpusKey, e);
  }

  /** `Thread(s) per core:` lines mention no other key. */
  lemma ThreadsLineKeys(e: Entry)
    requires WellPrinted(e)
    ensures var line := Printed(ThreadsPerCoreKey, e);
      Contains(line, ThreadsPerCoreKey) && !Contains(line, CpusKey) && !Contains(line, CoresPerSocketKey) && !Contains(line, SocketsKey)
  {
    ThreadsKeyChars();
    OwnKeyPresent(ThreadsPerCoreKey, e);
    OtherKeyAbsent(ThreadsPerCoreKey, e, CpusKey, 'U');
    OtherKeyAbsent(ThreadsPerCoreKey, e, CoresPerSocketKey, 'k');
    OtherKeyAbsent(ThreadsPerCoreKey, e, SocketsKey, 'S');
  }

  lemma StepOnThreadsLine(c: Counters, e: Entry)
    requires WellPrinted(e)
    ensures Step(c, Printed(ThreadsPerCoreKey, e)) == Ok(c.(threadsPerCore := e.value))
  {
    ThreadsLineKeys(e);
    FieldValueOfKeyLine(ThreadsPerCoreKey, e);
  }

  /** `Core(s) per socket:` lines mention no other key (`socket:` is lower-case, so not `Socket(s):`). */
  lemma CoresLineKeys(e: Entry)
    requires WellPrinted(e)
    ensures var line := Printed(CoresPerSocketKey, e);
      Contains(line, CoresPerSocketKey) && !Contains(line, CpusKey) && !Contains(line, ThreadsPerCoreKey) && !Contains(line, SocketsKey)
  {
    CoresKeyChars();
    OwnKeyPresent(CoresPerSocketKey, e);
    OtherKeyAbsent(CoresPerSocketKey, e, CpusKey, 'U');
    OtherKeyAbsent(CoresPerSocketKey, e, ThreadsPerCoreKey, 'T');
    OtherKeyAbsent(CoresPerSocketKey, e, SocketsKey, 'S');
  }

  lemma StepOnCoresLine(c: Counters, e: Entry)
    requires WellPrinted(e)
    ensures Step(c, Printed(CoresPerSocketKey, e)) == Ok(c.(corePerSocket := e.value))
  {
    CoresLineKeys(e);
    FieldValueOfKeyLine(CoresPerSocketKey, e);
  }

  /** `Socket(s):` lines mention no other key. */
  lemma SocketsLineKeys(e: Entry)
    requires WellPrinted(e)
    ensures var line := Printed(SocketsKey, e);
      Contains(line, SocketsKey) && !Contains(line, CpusKey) && !Contains(line, CoresPerSocketKey) && !Contains(line, ThreadsPerCoreKey)
  {
    SocketsKeyChars();
    OwnKeyPresent(SocketsKey, e);
    OtherKeyAbsent(SocketsKey, e, CpusKey, 'U');
    OtherKeyAbsent(SocketsKey, e, CoresPerSocketKey, 'C');
    OtherKeyAbsent(SocketsKey, e, ThreadsPerCoreKey, 'T');
  }

  lemma StepOnSocketsLine(c: Counters, e: Entry)
    requires WellPrinted(e)
    ensures Step(c, Printed(SocketsKey, e)) == Ok(c.(sockets := e.value))
  {
    SocketsLineKeys(e);
    FieldValueOfKeyLine(SocketsKey, e);
  }

  /** One iteration of the loop: a line that parses either ends the scan, once all four are set, or passes on. */
  lemma ScanFromContinues(lines: seq<string>, i: nat, c: Counters, c': Counters)
    requires i < |lines| && Step(c, lines[i]) == Ok(c')
    ensures ScanFrom(lines, i, c) == if AllSet(c') then Ok(c') else ScanFrom(lines, i + 1, c')
  {
  }

  /** No line in lines[i..j] mentions a key (`Architecture:`, `Vendor ID:`, `On-line CPU(s) list:`, ...). */
  predicate KeyFree(lines: seq<string>, i: nat, j: nat)
    requires i <= j <= |lines|
  {
    forall k :: i <= k < j ==> !MentionsKey(lines[k])
  }

  /** While a counter is zero, the loop passes over lines that mention no key without changing anything. */
  lemma {:induction false} ScanSkipsKeyFree(lines: seq<string>, i: nat, j: nat, c: Counters)
    requires i <= j <= |lines| && KeyFree(lines, i, j) && !AllSet(c)
    ensures ScanFrom(lines, i, c) == ScanFrom(lines, j, c)
    decreases j - i
  {
    if i < j {
      assert !MentionsKey(lines[i]);
      ScanFromContinues(lines, i, c, c);
      ScanSkipsKeyFree(lines, i + 1, j, c);
    }
  }

  // One loop iteration over each key's own line: the scan goes on while a counter is zero, and stops once all are set.

  lemma ScanPastCpusLine(lines: seq<string>, i: nat, c: Counters, e: Entry)
    requires i < |lines| && lines[i] == Printed(CpusKey, e) && WellPrinted(e)
    requires !AllSet(c.(coresCount := e.value))
    ensures ScanFrom(lines, i, c) == ScanFrom(lines, i + 1, c.(coresCount := e.value))
  {
    StepOnCpusLine(c, e);
    ScanFromContinues(lines, i, c, c.(coresCount := e.value));
  }

  lemma ScanPastThreadsLine(lines: seq<string>, i: nat, c: Counters, e: Entry)
    requires i < |lines| && lines[i] == Printed(ThreadsPerCoreKey, e) && WellPrinted(e)
    requires !AllSet(c.(threadsPerCore := e.value))
    ensures ScanFrom(lines, i, c) == ScanFrom(lines, i + 1, c.(threadsPerCore := e.value))
  {
    StepOnThreadsLine(c, e);
    ScanFromContinues(lines, i, c, c.(threadsPerCore := e.value));
  }

  lemma ScanPastCoresLine(lines: seq<string>, i: nat, c: Counters, e: Entry)
    requires i < |lines| && lines[i] == Printed(CoresPerSocketKey, e) && WellPrinted(e)
    requires !AllSet(c.(corePerSocket := e.value))
    ensures ScanFrom(lines, i, c) == ScanFrom(lines, i + 1, c.(corePerSocket := e.value))
  {
    StepOnCoresLine(c, e);
    ScanFromContinues(lines, i, c, c.(corePerSocket := e.value));
  }

  lemma ScanStopsAtSocketsLine(lines: seq<string>, i: nat, c: Counters, e: Entry)
    requires i < |lines| && lines[i] == Printed(SocketsKey, e) && WellPrinted(e)
    requires AllSet(c.(sockets := e.value))
    ensures ScanFrom(lines, i, c) == Ok(c.(sockets := e.value))
  {
    StepOnSocketsLine(c, e);
    ScanFromContinues(lines, i, c, c.(sockets := e.value));
  }

  /**
   * `lscpu` output with the four key lines in the order `lscpu` prints them
   * (CPU count first, then threads per core, cores per socket and sockets),
   * each possibly indented, with non-zero values and only key-free lines
   * before and between them.  The loop breaks after the socket line, so the
   * lines that follow (the NUMA lines, whatever they hold) are never parsed.
   */
  lemma TypicalOutputStopsAfterSockets(lines: seq<string>, i1: nat, i2: nat, i3: nat, i4: nat,
                                       cpus: Entry, threads: Entry, cores: Entry, sockets: Entry)
    requires i1 < i2 < i3 < i4 < |lines|
    requires KeyFree(lines, 0, i1) && KeyFree(lines, i1 + 1, i2) && KeyFree(lines, i2 + 1, i3) && KeyFree(lines, i3 + 1, i4)
    requires WellPrinted(cpus) && WellPrinted(threads) && WellPrinted(cores) && WellPrinted(sockets)
    requires cpus.value != 0 && threads.value != 0 && cores.value != 0 && sockets.value != 0
    requires lines[i1] == Printed(CpusKey, cpus) && lines[i2] == Printed(ThreadsPerCoreKey, threads)
    requires lines[i3] == Printed(CoresPerSocketKey, cores) && lines[i4] == Printed(SocketsKey, sockets)
    ensures Scan(lines) == Ok(Counters(cpus.value, cores.value, threads.value, sockets.value))
  {
    ScanFourKeyLines(lines, 0, Zero, i1, i2, i3, i4, cpus, threads, cores, sockets);
  }

  // The same from any position and starting counters, one key line (and the gap before it) at a time.

  lemma ScanFourKeyLines(lines: seq<string>, i: nat, c: Counters, i1: nat, i2: nat, i3: nat, i4: nat,
                         cpus: Entry, threads: Entry, cores: Entry, sockets: Entry)
    requires i <= i1 < i2 < i3 < i4 < |lines|
    requires KeyFree(lines, i, i1) && KeyFree(lines, i1 + 1, i2) && KeyFree(lines, i2 + 1, i3) && KeyFree(lines, i3 + 1, i4)
    requires WellPrinted(cpus) && WellPrinted(threads) && WellPrinted(cores) && WellPrinted(sockets)
    requires c.sockets == 0 && cpus.value != 0 && threads.value != 0 && cores.value != 0 && sockets.value != 0
    requires lines[i1] == Printed(CpusKey, cpus) && lines[i2] == Printed(ThreadsPerCoreKey, threads)
    requires lines[i3] == Printed(CoresPerSocketKey, cores) && lines[i4] == Printed(SocketsKey, sockets)
    ensures ScanFrom(lines, i, c) == Ok(Counters(cpus.value, cores.value, threads.value, sockets.value))
  {
    ScanSkipsKeyFree(lines, i, i1, c);
    ScanPastCpusLine(lines, i1, c, cpus);
    ScanThreadsCoresSockets(lines, i1 + 1, c.(coresCount := cpus.value), i2, i3, i4, threads, cores, sockets);
  }

  lemma ScanThreadsCoresSockets(lines: seq<string>, i: nat, c: Counters, i2: nat, i3: nat, i4: nat,
                                threads: Entry, cores: Entry, sockets: Entry)
    requires i <= i2 < i3 < i4 < |lines|
    requires KeyFree(lines, i, i2) && KeyFree(lines, i2 + 1, i3) && KeyFree(lines, i3 + 1, i4)
    requires WellPrinted(threads) && WellPrinted(cores) && WellPrinted(sockets)
    requires c.coresCount != 0 && c.sockets == 0 && threads.value != 0 && cores.value != 0 && sockets.value != 0
    requires lines[i2] == Printed(ThreadsPerCoreKey, threads)
    requires lines[i3] == Printed(CoresPerSocketKey, cores) && lines[i4] == Printed(SocketsKey, sockets)
    ensures ScanFrom(lines, i, c) == Ok(Counters(c.coresCount, cores.value, threads.value, sockets.value))
  {
    ScanSkipsKeyFree(lines, i, i2, c);
    ScanPastThreadsLine(lines, i2, c, threads);
    ScanCoresSockets(lines, i2 + 1, c.(threadsPerCore := threads.value), i3, i4, cores, sockets);
  }

  lemma ScanCoresSockets(lines: seq<string>, i: nat, c: Counters, i3: nat, i4: nat, cores: Entry, sockets: Entry)
    requires i <= i3 < i4 < |lines|
    requires KeyFree(lines, i, i3) && KeyFree(lines, i3 + 1, i4)
    requires WellPrinted(cores) && WellPrinted(sockets)
    requires c.coresCount != 0 && c.threadsPerCore != 0 && c.sockets == 0 && cores.value != 0 && sockets.value != 0
    requires lines[i3] == Printed(CoresPerSocketKey, cores) && lines[i4] == Printed(SocketsKey, sockets)
    ensures ScanFrom(lines, i, c) == Ok(Counters(c.coresCount, cores.value, c.threadsPerCore, sockets.value))
  {
    ScanSkipsKeyFree(lines, i, i3, c);
    ScanPastCoresLine(lines, i3, c, cores);
    ScanSocketsAfterGap(lines, i3 + 1, c.(corePerSocket := cores.value), i4, sockets);
  }

  lemma ScanSocketsAfterGap(lines: seq<string>, i: nat, c: Counters, i4: nat, sockets: Entry)
    requires i <= i4 < |lines| && KeyFree(lines, i, i4) && WellPrinted(sockets)
    requires c.coresCount != 0 && c.corePerSocket != 0 && c.threadsPerCore != 0 && c.sockets == 0 && sockets.value != 0
    requires lines[i4] == Printed(SocketsKey, sockets)
    ensures ScanFrom(lines, i, c) == Ok(c.(sockets := sockets.value))
  {
    ScanSkipsKeyFree(lines, i, i4, c);
    ScanStopsAtSocketsLine(lines, i4, c, sockets);
  }

  /** Whitespace followed by a CPU range `a-b` holds no colon, and `strip()` leaves the range. */
  lemma PaddedRange(pad: string, a: nat, b: nat)
    requires AllSpace(pad)
    ensures var range := NatStr(a) + "-" + NatStr(b);
      ':' !in pad + range && Strip(pad + range) == range
  {
    var range := NatStr(a) + "-" + NatStr(b);
    RangeIsPlain(a, b);
    ColonFreePadded(pad, range);
    StripPadded(pad, range);
  }

  /** A CPU range holds no colon and starts and ends with a digit. */
  lemma RangeIsPlain(a: nat, b: nat)
    ensures var range := NatStr(a) + "-" + NatStr(b);
      ':' !in range && !IsSpace(range[0]) && !IsSpace(range[|range| - 1])
  {
    NatStrValue(a);
    NatStrValue(b);
    var range := NatStr(a) + "-" + NatStr(b);
    assert range[0] == NatStr(a)[0] && range[|range| - 1] == NatStr(b)[|NatStr(b)| - 1];
  }

  lemma ColonFreePadded(pad: string, r: string)
    requires AllSpace(pad) && ':' !in r
    ensures ':' !in pad + r
  {
    var value := pad + r;
    assert forall k :: 0 <= k < |pad| ==> value[k] == pad[k];
    assert forall k :: |pad| <= k < |value| ==> value[k] == r[k - |pad|];
  }

  /** Whatever precedes the CPU key, `int()` rejects a CPU range after it. */
  lemma RangeValueRejected(head: string, pad: string, a: nat, b: nat)
    requires AllSpace(pad)
    ensures var range := NatStr(a) + "-" + NatStr(b);
      FieldValue(head + CpusKey + pad + range) == Err(ValueError(range))
  {
    RangeLineLastField(head, pad, a, b);
    RangeFieldRejected(head + CpusKey + pad + (NatStr(a) + "-" + NatStr(b)), pad, a, b);
  }

  /** The field after the CPU key's colon is the padded range. */
  lemma RangeLineLastField(head: string, pad: string, a: nat, b: nat)
    requires AllSpace(pad)
    ensures var range := NatStr(a) + "-" + NatStr(b);
      LastField(head + CpusKey + pad + range, ':') == pad + range
  {
    var range := NatStr(a) + "-" + NatStr(b);
    var value := pad + range;
    var name := head + "CPU(s)";
    var line := head + CpusKey + pad + range;
    assert CpusKey == "CPU(s)" + [':'];
    assert line == name + [':'] + value;
    PaddedRange(pad, a, b);
    LastFieldAfter(name, ':', value);
  }

  /** A line whose last field is a padded range has no integer value. */
  lemma RangeFieldRejected(line: string, pad: string, a: nat, b: nat)
    requires AllSpace(pad)
    requires LastField(line, ':') == pad + (NatStr(a) + "-" + NatStr(b))
    ensures FieldValue(line) == Err(ValueError(NatStr(a) + "-" + NatStr(b)))
  {
    var range := NatStr(a) + "-" + NatStr(b);
    PaddedRange(pad, a, b);
    PyIntRejectsRange(a, b);
    FieldValueRejects(line, range);
  }

  /** The line's value field strips to a literal that `int()` rejects: ValueError names that literal. */
  lemma FieldValueRejects(line: string, literal: string)
    requires Strip(LastField(line, ':')) == literal && PyInt(literal).None?
    ensures FieldValue(line) == Err(ValueError(literal))
  {
  }

  /**
   * A NUMA line, such as `NUMA node0 CPU(s):   0-7`: whatever the text before
   * the CPU key (here `NUMA node0 `), it mentions the key and `int()` rejects
   * its CPU range.
   */
  lemma NumaLineIsBad(head: string, pad: string, a: nat, b: nat)
    requires AllSpace(pad)
    ensures var line := head + CpusKey + pad + (NatStr(a) + "-" + NatStr(b));
      BadLine(line) && FieldValue(line) == Err(ValueError(NatStr(a) + "-" + NatStr(b)))
  {
    RangeValueRejected(head, pad, a, b);
    KeyLineMentionsKey(head, CpusKey, pad, NatStr(a) + "-" + NatStr(b));
    BadCpusLine(head + CpusKey + pad + (NatStr(a) + "-" + NatStr(b)));
  }

  lemma KeyLineMentionsKey(head: string, key: string, pad: string, value: string)
    ensures Contains(head + key + pad + value, key)
  {
    ContainsMiddle(head, key, pad + value);
    assert head + key + pad + value == head + key + (pad + value);
  }

  /** A line with the CPU key whose value `int()` rejects is a bad line. */
  lemma BadCpusLine(line: string)
    requires Contains(line, CpusKey) && FieldValue(line).Err?
    ensures BadLine(line)
  {
  }

  /**
   * Were a NUMA line reached while a counter is still zero, the scan would
   * fail on its CPU range: here a CPU line, then a NUMA line, with key-free
   * lines before and between them.
   */
  lemma NumaLineBeforeAllSetFails(lines: seq<string>, i1: nat, i2: nat, cpus: Entry,
                                  head: string, pad: string, a: nat, b: nat)
    requires WellPrinted(cpus) && AllSpace(pad)
    requires i1 < i2 < |lines| && KeyFree(lines, 0, i1) && KeyFree(lines, i1 + 1, i2)
    requires lines[i1] == Printed(CpusKey, cpus)
    requires lines[i2] == head + CpusKey + pad + (NatStr(a) + "-" + NatStr(b))
    ensures Scan(lines) == Err(ValueError(NatStr(a) + "-" + NatStr(b)))
  {
    ScanCpusThenNuma(lines, 0, Zero, i1, i2, cpus, head, pad, a, b);
  }

  // The same from any position with the socket count unset.

  lemma ScanCpusThenNuma(lines: seq<string>, i: nat, c: Counters, i1: nat, i2: nat, cpus: Entry,
                         head: string, pad: string, a: nat, b: nat)
    requires WellPrinted(cpus) && AllSpace(pad) && c.sockets == 0
    requires i <= i1 < i2 < |lines| && KeyFree(lines, i, i1) && KeyFree(lines, i1 + 1, i2)
    requires lines[i1] == Printed(CpusKey, cpus)
    requires lines[i2] == head + CpusKey + pad + (NatStr(a) + "-" + NatStr(b))
    ensures ScanFrom(lines, i, c) == Err(ValueError(NatStr(a) + "-" + NatStr(b)))
  {
    ScanSkipsKeyFree(lines, i, i1, c);
    ScanPastCpusLine(lines, i1, c, cpus);
    ScanSkipsKeyFree(lines, i1 + 1, i2, c.(coresCount := cpus.value));
    NumaLineIsBad(head, pad, a, b);
    ScanStopsOnBadLine(lines, i2, c.(coresCount := cpus.value));
  }

  /** A bad line ends the scan with its error. */
  lemma ScanStopsOnBadLine(lines: seq<string>, i: nat, c: Counters)
    requires i < |lines| && BadLine(lines[i])
    ensures ScanFrom(lines, i, c) == Err(FieldValue(lines[i]).error)
  {
    StepFailsOnBadLine(c, lines[i]);
  }
}
