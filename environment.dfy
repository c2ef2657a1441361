/** The environment extractor (`getEnv`): runs `printenv` in the container, splits its
    output into lines as Go's bufio.ScanLines does, and stores each `key=value` line in
    a map, with the key slice exactly as the source writes it. */
module Environment {
  import opened Errors
  import opened Cri

  /** The environment-dump command run inside the container. */
  const EnvCommand: seq<string> := ["printenv"]

  /** strings.IndexByte: the index of the first `c` in `s`, or -1. */
  function IndexByte(s: string, c: char): (ix: int)
    ensures ix == -1 <==> c !in s
    ensures ix != -1 ==> 0 <= ix < |s| && s[ix] == c && c !in s[..ix]
    decreases |s|
  {
    if s == [] then -1
    else if s[0] == c then 0
    else
      var ix := IndexByte(s[1..], c);
      if ix == -1 then -1 else ix + 1
  }

  /** One trailing carriage return is not part of a line. */
  function DropCR(s: string): string
  {
    if |s| > 0 && s[|s| - 1] == '\r' then s[..|s| - 1] else s
  }

  /** The tokens bufio.Scanner yields with ScanLines: the text is split at each `\n`,
      each token loses one trailing `\r`, and a final empty token (after a trailing
      newline, or for empty text) is not produced. */
  function ScanLines(s: string): (lines: seq<string>)
    ensures forall k :: 0 <= k < |lines| ==> '\n' !in lines[k]
    decreases |s|
  {
    if s == [] then []
    else
      var ix := IndexByte(s, '\n');
      if ix == -1 then [DropCR(s)] else [DropCR(s[..ix])] + ScanLines(s[ix + 1..])
  }

  /** Newline-terminated text made of the given lines, as `printenv` writes it. */
  function JoinLines(lines: seq<string>): string
  {
    if lines == [] then [] else lines[0] + "\n" + JoinLines(lines[1..])
  }

  /** Scanning a line followed by a newline yields that line, then what follows. */
  lemma ScanLinesCons(line: string, rest: string)
    requires '\n' !in line
    ensures ScanLines(line + "\n" + rest) == [DropCR(line)] + ScanLines(rest)
  {
    var s := line + "\n" + rest;
    assert s[|line|] == '\n';
    assert s[..|line|] == line;
    assert s[|line| + 1..] == rest;
    assert IndexByte(s, '\n') == |line|;
  }

  /** Scanning newline-terminated lines gives the lines back, provided none holds a
      newline or ends in a carriage return. */
  lemma {:induction false} ScanJoinRoundTrip(lines: seq<string>)
    requires forall k :: 0 <= k < |lines| ==> '\n' !in lines[k] && DropCR(lines[k]) == lines[k]
    ensures ScanLines(JoinLines(lines)) == lines
    decreases |lines|
  {
    if lines != [] {
      ScanLinesCons(lines[0], JoinLines(lines[1..]));
      ScanJoinRoundTrip(lines[1..]);
    }
  }

  /** A last line without a newline is still produced, minus one trailing `\r`. */
  lemma {:induction false} ScanUnterminatedLast(lines: seq<string>, last: string)
    requires forall k :: 0 <= k < |lines| ==> '\n' !in lines[k] && DropCR(lines[k]) == lines[k]
    requires last != [] && '\n' !in last
    ensures ScanLines(JoinLines(lines) + last) == lines + [DropCR(last)]
    decreases |lines|
  {
    if lines == [] {
      assert JoinLines(lines) + last == last;
    } else {
      assert JoinLines(lines) + last == lines[0] + "\n" + (JoinLines(lines[1..]) + last);
      ScanLinesCons(lines[0], JoinLines(lines[1..]) + last);
      ScanUnterminatedLast(lines[1..], last);
    }
  }

  /** What one line contributes: nothing, a key/value pair, or the run-time panic of
      the key slice (its end index is -1) when the line starts with `=`. */
  datatype LineEntry = NoAssignment | Assignment(key: string, value: string) | SliceOutOfRange

  /** The loop body of getEnv for one line. The key is the text before the first `=`
      without its last character; the value is everything after that `=`. */
  function ParseEnvLine(line: string): (e: LineEntry)
    ensures e.NoAssignment? <==> '=' !in line
    ensures e.SliceOutOfRange? <==> |line| > 0 && line[0] == '='
    ensures e.Assignment? ==>
      |e.key| + 1 < |line| && line[|e.key| + 1] == '=' && '=' !in line[..|e.key| + 1] &&
      e.key == line[..|e.key|] && e.value == line[|e.key| + 2..]
  {
    var ix := IndexByte(line, '=');
    if ix == -1 then NoAssignment
    else if ix == 0 then SliceOutOfRange
    else Assignment(line[..ix - 1], line[ix + 1..])
  }

  /** The line `k=v` (with no `=` in `k`) is stored under `k` minus its last character,
      and its value is all of `v`, including any further `=`. */
  lemma EnvKeyDropsLastChar(k: string, v: string)
    requires k != [] && '=' !in k
    ensures ParseEnvLine(k + "=" + v) == Assignment(k[..|k| - 1], v)
  {
    var line := k + "=" + v;
    assert line[|k|] == '=' && line[..|k|] == k;
    assert line[..|k| - 1] == k[..|k| - 1];
    assert line[|k| + 1..] == v;
  }

  ghost predicate Stores(line: string, key: string)
  {
    ParseEnvLine(line).Assignment? && ParseEnvLine(line).key == key
  }

  /** The map getEnv fills from the lines, in order, later lines overwriting earlier
      ones; None when a line makes the key slice panic. */
  function StoreLines(lines: seq<string>): Option<map<string, string>>
    decreases |lines|
  {
    if lines == [] then Some(map[])
    else
      match StoreLines(lines[..|lines| - 1])
      case None => None
      case Some(env) =>
        match ParseEnvLine(lines[|lines| - 1])
        case NoAssignment => Some(env)
        case Assignment(k, v) => Some(env[k := v])
        case SliceOutOfRange => None
  }

  /** A panic in a prefix of the lines is a panic of all of them. */
  lemma {:induction false} StoreLinesPanicPersists(lines: seq<string>, n: nat)
    requires n <= |lines| && StoreLines(lines[..n]).None?
    ensures StoreLines(lines).None?
    decreases |lines|
  {
    if n < |lines| {
      var init := lines[..|lines| - 1];
      assert init[..n] == lines[..n];
      StoreLinesPanicPersists(init, n);
    } else {
      assert lines[..n] == lines;
    }
  }

  /** getEnv panics exactly when some line starts with `=`. */
  lemma {:induction false} StoreLinesPanics(lines: seq<string>)
    ensures StoreLines(lines).None? <==> exists k :: 0 <= k < |lines| && ParseEnvLine(lines[k]).SliceOutOfRange?
    decreases |lines|
  {
    if lines != [] {
      var init := lines[..|lines| - 1];
      StoreLinesPanics(init);
      assert forall k :: 0 <= k < |init| ==> init[k] == lines[k];
      if ParseEnvLine(lines[|lines| - 1]).SliceOutOfRange? {
        assert exists k :: 0 <= k < |lines| && ParseEnvLine(lines[k]).SliceOutOfRange?;
      }
      if exists k :: 0 <= k < |lines| && ParseEnvLine(lines[k]).SliceOutOfRange? {
        var k :| 0 <= k < |lines| && ParseEnvLine(lines[k]).SliceOutOfRange?;
        if k < |init| {
          assert ParseEnvLine(init[k]).SliceOutOfRange?;
        }
      }
    }
  }

  /** The line that last stores `key`. */
  ghost predicate LastStore(lines: seq<string>, k: int, key: string)
  {
    0 <= k < |lines| && Stores(lines[k], key) && forall m :: k < m < |lines| ==> !Stores(lines[m], key)
  }

  /** A key is in the map exactly when some line stores it, and its value is the one
      of the last line that stores it. Lines without `=` add nothing. */
  lemma {:induction false} StoreLinesLookup(lines: seq<string>, key: string)
    requires StoreLines(lines).Some?
    ensures key in StoreLines(lines).value <==> exists k :: 0 <= k < |lines| && Stores(lines[k], key)
    ensures key in StoreLines(lines).value ==>
      exists k :: LastStore(lines, k, key) && StoreLines(lines).value[key] == ParseEnvLine(lines[k]).value
    decreases |lines|
  {
    if lines != [] {
      var init, line := lines[..|lines| - 1], lines[|lines| - 1];
      assert StoreLines(init).Some?;
      var prev, env := StoreLines(init).value, StoreLines(lines).value;
      StoreLinesLookup(init, key);
      assert forall k :: 0 <= k < |init| ==> init[k] == lines[k];
      if Stores(line, key) {
        assert env == prev[key := ParseEnvLine(line).value];
        assert LastStore(lines, |lines| - 1, key);
      } else {
        assert key in env <==> key in prev;
        assert key in env ==> env[key] == prev[key];
        StoreLinesLookupStep(lines, key);
      }
    }
  }

  /** The induction step of StoreLinesLookup when the last line does not store `key`. */
  lemma StoreLinesLookupStep(lines: seq<string>, key: string)
    requires lines != [] && !Stores(lines[|lines| - 1], key)
    requires (exists k :: 0 <= k < |lines| && Stores(lines[k], key)) <==>
             (exists k :: 0 <= k < |lines| - 1 && Stores(lines[k], key))
    ensures forall k :: LastStore(lines[..|lines| - 1], k, key) ==> LastStore(lines, k, key)
  {
  }

  /** What getEnv returns: Go's (map, error) pair, or the run-time panic. */
  datatype EnvResult = EnvResult(vars: map<string, string>, err: Option<Error>) | SlicePanic

  /** getEnv: the environment of the container, parsed from the output of `printenv`.
      A failed exec gives the empty map with the exec error; otherwise the error is the
      (nil) exec error, since scanner errors are only logged. */
  method GetEnv(rt: RuntimeService, containerId: string) returns (r: EnvResult)
    ensures rt.execSync(containerId, EnvCommand).Err? ==>
      r == EnvResult(map[], Some(rt.execSync(containerId, EnvCommand).error))
    ensures rt.execSync(containerId, EnvCommand).Ok? ==>
      var stored := StoreLines(ScanLines(rt.execSync(containerId, EnvCommand).value));
      r == if stored.Some? then EnvResult(stored.value, None) else SlicePanic
  {
    var envVariables: map<string, string> := map[];
    var out := rt.execSync(containerId, EnvCommand);
    if out.Err? {
      return EnvResult(envVariables, Some(out.error));
    }
    var lines := ScanLines(out.value);
    var i := 0;
    while i < |lines|
      invariant 0 <= i <= |lines|
      invariant StoreLines(lines[..i]) == Some(envVariables)
    {
      var line := lines[i];
      assert lines[..i + 1][..i] == lines[..i];
      var ix := IndexByte(line, '=');
      if ix != -1 {
        if ix == 0 {
          StoreLinesPanicPersists(lines, i + 1);
          return SlicePanic;
        }
        envVariables := envVariables[line[..ix - 1] := line[ix + 1..]];
      }
      i := i + 1;
    }
    assert lines[..i] == lines;
    return EnvResult(envVariables, None);
  }

  /** The sample `printenv` output: `FOO=bar` is stored under `FO`, `BAZ=qux=1` under
      `BA` with value `qux=1`, and `NOEQUALS` adds nothing. */
  lemma PrintenvSample()
    ensures StoreLines(ScanLines("FOO=bar" + "\n" + "BAZ=qux=1" + "\n" + "NOEQUALS" + "\n")) ==
      Some(map["FO" := "bar", "BA" := "qux=1"])
  {
    SampleLine0();
    SampleLine1();
    SampleLine2();
    ScanThree("FOO=bar", "BAZ=qux=1", "NOEQUALS");
    StoreThree("FOO=bar", "BAZ=qux=1", "NOEQUALS");
  }

  lemma ScanThree(l0: string, l1: string, l2: string)
    requires '\n' !in l0 && DropCR(l0) == l0 && '\n' !in l1 && DropCR(l1) == l1
    requires '\n' !in l2 && DropCR(l2) == l2
    ensures ScanLines(l0 + "\n" + l1 + "\n" + l2 + "\n") == [l0, l1, l2]
  {
    assert forall k :: 0 <= k < 3 ==> [l0, l1, l2][k] in {l0, l1, l2};
    ScanJoinRoundTrip([l0, l1, l2]);
    JoinThree(l0, l1, l2);
  }

  lemma SampleLine0()
    ensures '\n' !in "FOO=bar" && DropCR("FOO=bar") == "FOO=bar"
    ensures ParseEnvLine("FOO=bar") == Assignment("FO", "bar")
  {
    EnvKeyDropsLastChar("FOO", "bar");
    assert "FOO" + "=" + "bar" == "FOO=bar";
    assert "FOO"[..2] == "FO";
  }

  lemma SampleLine1()
    ensures '\n' !in "BAZ=qux=1" && DropCR("BAZ=qux=1") == "BAZ=qux=1"
    ensures ParseEnvLine("BAZ=qux=1") == Assignment("BA", "qux=1")
  {
    EnvKeyDropsLastChar("BAZ", "qux=1");
    assert "BAZ" + "=" + "qux=1" == "BAZ=qux=1";
    assert "BAZ"[..2] == "BA";
  }

  lemma SampleLine2()
    ensures '\n' !in "NOEQUALS" && DropCR("NOEQUALS") == "NOEQUALS"
    ensures ParseEnvLine("NOEQUALS") == NoAssignment
  {
    assert '=' !in "NOEQUALS";
  }

  lemma JoinThree(l0: string, l1: string, l2: string)
    ensures JoinLines([l0, l1, l2]) == l0 + "\n" + l1 + "\n" + l2 + "\n"
  {
    assert [l2][1..] == [];
    assert JoinLines([l2]) == l2 + "\n";
    assert [l1, l2][1..] == [l2];
    assert JoinLines([l1, l2]) == l1 + "\n" + (l2 + "\n");
    assert [l0, l1, l2][1..] == [l1, l2];
    assert JoinLines([l0, l1, l2]) == l0 + "\n" + (l1 + "\n" + (l2 + "\n"));
  }

  lemma StoreThree(l0: string, l1: string, l2: string)
    requires ParseEnvLine(l0) == Assignment("FO", "bar")
    requires ParseEnvLine(l1) == Assignment("BA", "qux=1")
    requires ParseEnvLine(l2) == NoAssignment
    ensures StoreLines([l0, l1, l2]) == Some(map["FO" := "bar", "BA" := "qux=1"])
  {
    StoreLinesAppend([], l0);
    assert [] + [l0] == [l0];
    StoreLinesAppend([l0], l1);
    assert [l0] + [l1] == [l0, l1];
    StoreLinesAppend([l0, l1], l2);
    assert [l0, l1] + [l2] == [l0, l1, l2];
  }

  /** Appending a line: a later `key=value` line overwrites the key, a line without
      `=` changes nothing, and a line starting with `=` panics. */
  lemma StoreLinesAppend(lines: seq<string>, line: string)
    ensures StoreLines(lines).Some? && ParseEnvLine(line).Assignment? ==>
      StoreLines(lines + [line]) ==
        Some(StoreLines(lines).value[ParseEnvLine(line).key := ParseEnvLine(line).value])
    ensures ParseEnvLine(line).NoAssignment? ==> StoreLines(lines + [line]) == StoreLines(lines)
    ensures ParseEnvLine(line).SliceOutOfRange? ==> StoreLines(lines + [line]).None?
  {
    assert (lines + [line])[..|lines|] == lines;
  }

  /** A line starting with `=` makes getEnv panic, whatever the other lines are. */
  lemma LeadingEqualsPanics(before: seq<string>, v: string, after: seq<string>)
    ensures StoreLines(before + ["=" + v] + after).None?
  {
    var lines := before + ["=" + v] + after;
    assert lines[|before|] == "=" + v;
    StoreLinesPanics(lines);
  }
}
