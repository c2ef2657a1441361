/** The namespace identifier (`getNS`): runs `ls -l /proc/self/ns/` in the container
    and reads the inode of namespace `ns` out of the first `ns:[<digits>]` in the output. */
module Namespace {
  import opened Errors
  import opened Cri

  newtype uint64 = x: int | 0 <= x < 0x1_0000_0000_0000_0000

  const MaxInt64: int := 0x7FFF_FFFF_FFFF_FFFF

  /** The introspection command run inside the container. */
  const NsCommand: seq<string> := ["ls", "-l", "/proc/self/ns/"]

  /** What getNS returns: Go's (uint64, error) pair. */
  datatype NsResult = NsResult(inode: uint64, err: Option<Error>)

  /** `\d` in Go's regexp syntax: an ASCII decimal digit. */
  predicate IsDigit(c: char) { '0' <= c <= '9' }

  predicate AllDigits(s: string) { forall k :: 0 <= k < |s| ==> IsDigit(s[k]) }

  /** `s` has none of the characters that Go's regexp syntax treats specially,
      so `s` used as a pattern matches exactly itself. */
  predicate IsRegexLiteral(s: string) { forall k :: 0 <= k < |s| ==> s[k] !in "\\.+*?()|[]{}^$" }

  /** The pattern `ns:\[(\d+)\]` matches `text` at position `i`, capturing `d`. */
  predicate IsMatch(text: string, ns: string, i: nat, d: string)
  {
    i <= |text| && d != [] && AllDigits(d) && ns + ":[" + d + "]" <= text[i..]
  }

  /** The match at `i` is the leftmost match of the pattern in `text`. */
  ghost predicate IsLeftmostMatch(text: string, ns: string, i: nat, d: string)
  {
    IsMatch(text, ns, i, d) && forall j: nat, d' :: j < i ==> !IsMatch(text, ns, j, d')
  }

  /** The length of the run of digits in `text` starting at `j`. */
  function DigitRun(text: string, j: nat): (k: nat)
    requires j <= |text|
    ensures j + k <= |text|
    ensures forall m :: j <= m < j + k ==> IsDigit(text[m])
    ensures j + k == |text| || !IsDigit(text[j + k])
    decreases |text| - j
  {
    if j < |text| && IsDigit(text[j]) then 1 + DigitRun(text, j + 1) else 0
  }

  lemma {:induction false} DigitRunIsMaximal(text: string, j: nat, m: nat)
    requires j + m <= |text|
    requires forall p :: j <= p < j + m ==> IsDigit(text[p])
    requires j + m == |text| || !IsDigit(text[j + m])
    ensures DigitRun(text, j) == m
    decreases m
  {
    if m > 0 {
      assert IsDigit(text[j]);
      DigitRunIsMaximal(text, j + 1, m - 1);
    }
  }

  /** A match at `i` spelled out position by position. */
  lemma MatchShape(text: string, ns: string, i: nat, d: string)
    requires i <= |text|
    ensures ns + ":[" + d + "]" <= text[i..] <==>
      i + |ns| + |d| + 3 <= |text| && text[i..i + |ns|] == ns
      && text[i + |ns|] == ':' && text[i + |ns| + 1] == '['
      && text[i + |ns| + 2..i + |ns| + 2 + |d|] == d && text[i + |ns| + 2 + |d|] == ']'
  {
    var p := ns + ":[" + d + "]";
    var j := i + |ns| + 2;
    if p <= text[i..] {
      assert text[i..i + |ns|] == p[..|ns|] == ns;
      assert text[i + |ns|] == p[|ns|];
      assert text[i + |ns| + 1] == p[|ns| + 1];
      assert text[j..j + |d|] == p[|ns| + 2..|ns| + 2 + |d|] == d;
      assert text[j + |d|] == p[|ns| + 2 + |d|];
    }
    if i + |ns| + |d| + 3 <= |text| && text[i..i + |ns|] == ns
      && text[i + |ns|] == ':' && text[i + |ns| + 1] == '['
      && text[j..j + |d|] == d && text[j + |d|] == ']'
    {
      forall k | 0 <= k < |p| ensures p[k] == text[i..][k] {
        if k < |ns| {
          assert p[k] == ns[k] == text[i..i + |ns|][k];
        } else if |ns| + 2 <= k < |ns| + 2 + |d| {
          assert p[k] == d[k - |ns| - 2] == text[j..j + |d|][k - |ns| - 2];
        }
      }
      assert p == text[i..][..|p|];
    }
  }

  /** The capture of the pattern at position `i`, if it matches there. Because `\d+`
      is greedy and must be followed by `]`, at most one capture is possible. */
  function MatchAt(text: string, ns: string, i: nat): (r: Option<string>)
    requires i <= |text|
    ensures forall d :: IsMatch(text, ns, i, d) <==> r == Some(d)
  {
    var j := i + |ns| + 2;
    if j < |text| && text[i..i + |ns|] == ns && text[i + |ns|] == ':' && text[i + |ns| + 1] == '[' then
      var k := DigitRun(text, j);
      if 0 < k && j + k < |text| && text[j + k] == ']' then
        MatchAtFound(text, ns, i, k);
        Some(text[j..j + k])
      else
        MatchDetermined(text, ns, i);
        None
    else
      MatchDetermined(text, ns, i);
      None
  }

  lemma MatchAtFound(text: string, ns: string, i: nat, k: nat)
    requires i + |ns| + 2 + k < |text|
    requires text[i..i + |ns|] == ns && text[i + |ns|] == ':' && text[i + |ns| + 1] == '['
    requires 0 < k && DigitRun(text, i + |ns| + 2) == k && text[i + |ns| + 2 + k] == ']'
    ensures forall d :: IsMatch(text, ns, i, d) <==> d == text[i + |ns| + 2..i + |ns| + 2 + k]
  {
    var j := i + |ns| + 2;
    var c := text[j..j + k];
    forall d ensures IsMatch(text, ns, i, d) <==> d == c {
      MatchShape(text, ns, i, d);
      if IsMatch(text, ns, i, d) {
        DigitRunIsMaximal(text, j, |d|);
      }
      if d == c {
        assert forall m :: 0 <= m < |c| ==> c[m] == text[j + m];
      }
    }
  }

  /** A match at `i` fixes its capture: the digit run after `ns:[`, followed by `]`. */
  lemma MatchDetermined(text: string, ns: string, i: nat)
    requires i <= |text|
    ensures forall d :: IsMatch(text, ns, i, d) ==>
      i + |ns| + 2 < |text| && text[i..i + |ns|] == ns && text[i + |ns|] == ':' && text[i + |ns| + 1] == '['
      && 0 < DigitRun(text, i + |ns| + 2) == |d| && i + |ns| + 2 + |d| < |text| && text[i + |ns| + 2 + |d|] == ']'
  {
    forall d | IsMatch(text, ns, i, d)
      ensures i + |ns| + 2 < |text| && text[i..i + |ns|] == ns && text[i + |ns|] == ':' && text[i + |ns| + 1] == '['
      ensures 0 < DigitRun(text, i + |ns| + 2) == |d| && i + |ns| + 2 + |d| < |text| && text[i + |ns| + 2 + |d|] == ']'
    {
      MatchShape(text, ns, i, d);
      var j := i + |ns| + 2;
      forall p | j <= p < j + |d| ensures IsDigit(text[p]) {
        assert text[p] == text[j..j + |d|][p - j] == d[p - j];
      }
      DigitRunIsMaximal(text, j, |d|);
    }
  }

  /** The leftmost match of the pattern at or after position `i`. */
  function FindFrom(text: string, ns: string, i: nat): (r: Option<(nat, string)>)
    requires i <= |text|
    ensures r.Some? ==> i <= r.value.0 && IsMatch(text, ns, r.value.0, r.value.1)
    ensures r.Some? ==> forall j: nat, d :: i <= j < r.value.0 ==> !IsMatch(text, ns, j, d)
    ensures r.None? ==> forall j: nat, d :: i <= j ==> !IsMatch(text, ns, j, d)
    decreases |text| - i
  {
    match MatchAt(text, ns, i)
    case Some(d) => Some((i, d))
    case None => if i == |text| then None else FindFrom(text, ns, i + 1)
  }

  /** Go's `FindStringSubmatch` for the pattern `ns:\[(\d+)\]`: the position and the
      capture of the leftmost match, if any. */
  function LeftmostMatch(text: string, ns: string): (r: Option<(nat, string)>)
    ensures r.Some? ==> IsLeftmostMatch(text, ns, r.value.0, r.value.1)
    ensures r.None? <==> forall j: nat, d :: !IsMatch(text, ns, j, d)
  {
    FindFrom(text, ns, 0)
  }

  /** The leftmost match is unique: any leftmost match is the one LeftmostMatch finds. */
  lemma LeftmostMatchUnique(text: string, ns: string, i: nat, d: string)
    requires IsLeftmostMatch(text, ns, i, d)
    ensures LeftmostMatch(text, ns) == Some((i, d))
  {
    var r := LeftmostMatch(text, ns);
    assert r.Some?;
    var (i', d') := r.value;
    assert !(i' < i) && !(i < i');
    var c := MatchAt(text, ns, i);
    assert c == Some(d) && c == Some(d');
  }

  function DigitValue(c: char): nat
    requires IsDigit(c)
  {
    (c as int) - ('0' as int)
  }

  function DigitChar(n: nat): (c: char)
    requires n < 10
    ensures IsDigit(c) && DigitValue(c) == n
  {
    (('0' as int) + n) as char
  }

  /** The decimal value of a digit string, most significant digit first. */
  function DecimalValue(d: string): nat
    requires AllDigits(d)
    decreases |d|
  {
    if d == [] then 0 else 10 * DecimalValue(d[..|d| - 1]) + DigitValue(d[|d| - 1])
  }

  /** The decimal spelling of `n`, as `ls` prints an inode number. */
  function Decimal(n: nat): (d: string)
    ensures d != [] && AllDigits(d)
    decreases n
  {
    if n < 10 then [DigitChar(n)] else Decimal(n / 10) + [DigitChar(n % 10)]
  }

  lemma {:induction false} DecimalRoundTrip(n: nat)
    ensures DecimalValue(Decimal(n)) == n
  {
    var d := Decimal(n);
    if n < 10 {
      assert d[..0] == [];
    } else {
      DecimalRoundTrip(n / 10);
      assert d[..|d| - 1] == Decimal(n / 10);
    }
  }

  /** strconv.ParseInt(d, 10, 64) converted to uint64, for a digit string `d`:
      out of range yields the largest int64 together with a range error. */
  function ParseInode(d: string): NsResult
    requires d != [] && AllDigits(d)
  {
    var v := DecimalValue(d);
    if v <= MaxInt64 then NsResult(v as uint64, None)
    else NsResult(MaxInt64 as uint64, Some(ParseIntRange(d)))
  }

  /** getNS: the inode of namespace `ns` of the container, from the output of NsCommand. */
  function GetNS(rt: RuntimeService, ns: string, containerId: string): (r: NsResult)
    requires IsRegexLiteral(ns)
    ensures rt.execSync(containerId, NsCommand).Err? ==>
      r == NsResult(0, Some(rt.execSync(containerId, NsCommand).error))
    ensures (rt.execSync(containerId, NsCommand).Ok? &&
             forall j: nat, d :: !IsMatch(rt.execSync(containerId, NsCommand).value, ns, j, d))
            ==> r == NsResult(0, Some(NamespaceNotFound))
    ensures r.err.None? ==>
      (rt.execSync(containerId, NsCommand).Ok? &&
       LeftmostMatch(rt.execSync(containerId, NsCommand).value, ns).Some? &&
       r.inode as int == DecimalValue(LeftmostMatch(rt.execSync(containerId, NsCommand).value, ns).value.1) <= MaxInt64)
  {
    match rt.execSync(containerId, NsCommand)
    case Err(e) => NsResult(0, Some(e))
    case Ok(stdout) =>
      match LeftmostMatch(stdout, ns)
      case None => NsResult(0, Some(NamespaceNotFound))
      case Some((_, d)) => ParseInode(d)
  }

  /** With `ns:[d]` the leftmost match in the output, getNS yields the value of `d`,
      or a range error when it does not fit in an int64. */
  lemma GetNSOfLeftmostMatch(rt: RuntimeService, ns: string, containerId: string, i: nat, d: string)
    requires IsRegexLiteral(ns)
    requires rt.execSync(containerId, NsCommand).Ok?
    requires IsLeftmostMatch(rt.execSync(containerId, NsCommand).value, ns, i, d)
    ensures DecimalValue(d) <= MaxInt64 ==> GetNS(rt, ns, containerId) == NsResult(DecimalValue(d) as uint64, None)
    ensures DecimalValue(d) > MaxInt64 ==>
      GetNS(rt, ns, containerId) == NsResult(MaxInt64 as uint64, Some(ParseIntRange(d)))
  {
    LeftmostMatchUnique(rt.execSync(containerId, NsCommand).value, ns, i, d);
  }

  /** In an `ls -l` line `<pre>ns:[d]<rest>` whose preamble has no `[`, the leftmost
      match is the one right after the preamble. */
  lemma LsLineLeftmost(ns: string, pre: string, d: string, rest: string)
    requires IsRegexLiteral(ns) && '[' !in pre && d != [] && AllDigits(d)
    ensures IsLeftmostMatch(pre + ns + ":[" + d + "]" + rest, ns, |pre|, d)
  {
    var text := pre + ns + ":[" + d + "]" + rest;
    var i := |pre|;
    assert text[i..] == ns + ":[" + d + "]" + rest;
    assert IsMatch(text, ns, i, d);
    forall j: nat, d' | j < i ensures !IsMatch(text, ns, j, d') {
      MatchShape(text, ns, j, d');
      var b := j + |ns| + 1;
      if b < i {
        assert text[b] == pre[b];
      } else if b < i + |ns| {
        assert text[b] == ns[b - i];
        assert ns[b - i] !in "\\.+*?()|[]{}^$";
      } else {
        assert b == i + |ns|;
        assert text[b] == ':';
      }
    }
  }

  /** Reading an `ls -l` line `<pre>ns:[d]<rest>` whose preamble has no `[`: getNS
      yields the value of `d`, or the range error when it does not fit in an int64. */
  lemma LsLineInode(rt: RuntimeService, containerId: string, ns: string, pre: string, d: string, rest: string)
    requires IsRegexLiteral(ns) && '[' !in pre && d != [] && AllDigits(d)
    requires rt.execSync(containerId, NsCommand) == Ok(pre + ns + ":[" + d + "]" + rest)
    ensures DecimalValue(d) <= MaxInt64 ==> GetNS(rt, ns, containerId) == NsResult(DecimalValue(d) as uint64, None)
    ensures DecimalValue(d) > MaxInt64 ==>
      GetNS(rt, ns, containerId) == NsResult(MaxInt64 as uint64, Some(ParseIntRange(d)))
  {
    LsLineLeftmost(ns, pre, d, rest);
    GetNSOfLeftmostMatch(rt, ns, containerId, |pre|, d);
  }

  /** With no `ns:[digits]` anywhere in the output, getNS fails with the fixed
      "mnt namespace not found" error, whatever `ns` is. */
  lemma GetNSNotFound(rt: RuntimeService, ns: string, containerId: string)
    requires IsRegexLiteral(ns)
    requires rt.execSync(containerId, NsCommand).Ok?
    requires LeftmostMatch(rt.execSync(containerId, NsCommand).value, ns).None?
    ensures GetNS(rt, ns, containerId) == NsResult(0, Some(NamespaceNotFound))
    ensures Message(GetNS(rt, ns, containerId).err.value) == "mnt namespace not found"
  {
  }

  /** Encoding an inode in an `ls -l` line and reading it back with getNS gives it back. */
  lemma {:induction false} InodeRoundTrip(rt: RuntimeService, containerId: string, ns: string, pre: string, n: nat, rest: string)
    requires IsRegexLiteral(ns) && '[' !in pre && n <= MaxInt64
    requires rt.execSync(containerId, NsCommand) == Ok(pre + ns + ":[" + Decimal(n) + "]" + rest)
    ensures GetNS(rt, ns, containerId) == NsResult(n as uint64, None)
  {
    DecimalRoundTrip(n);
    LsLineInode(rt, containerId, ns, pre, Decimal(n), rest);
  }

  lemma Decimal4026532605()
    ensures AllDigits("4026532605") && DecimalValue("4026532605") == 4026532605
  {
    assert "4026532605"[..9] == "402653260";
    assert "402653260"[..8] == "40265326";
    assert "40265326"[..7] == "4026532";
    assert "4026532"[..6] == "402653";
    assert "402653"[..5] == "40265";
    assert "40265"[..4] == "4026";
    assert "4026"[..3] == "402";
    assert "402"[..2] == "40";
    assert "40"[..1] == "4";
    assert "4"[..0] == "";
  }

  /** The sample line of `ls -l /proc/self/ns/` (split only to keep the literals short),
      read for the pid namespace. */
  lemma PidNamespaceSample(rt: RuntimeService, containerId: string)
    requires rt.execSync(containerId, NsCommand) ==
      Ok("lrwxrwxrwx 1 root root 0 " + "Jul 28 16:39 /proc/1/ns/pid -> " + "pid" + ":[" + "4026532605" + "]" + "\n")
    ensures GetNS(rt, "pid", containerId) == NsResult(4026532605, None)
  {
    var pre := "lrwxrwxrwx 1 root root 0 " + "Jul 28 16:39 /proc/1/ns/pid -> ";
    Decimal4026532605();
    LsLineInode(rt, containerId, "pid", pre, "4026532605", "\n");
  }

  /** An inode too large for an int64 in an `ls -l` line: getNS reports the range error. */
  lemma {:induction false} InodeOverflow(rt: RuntimeService, containerId: string, ns: string, pre: string, n: nat, rest: string)
    requires IsRegexLiteral(ns) && '[' !in pre && n > MaxInt64
    requires rt.execSync(containerId, NsCommand) == Ok(pre + ns + ":[" + Decimal(n) + "]" + rest)
    ensures GetNS(rt, ns, containerId) == NsResult(MaxInt64 as uint64, Some(ParseIntRange(Decimal(n))))
  {
    DecimalRoundTrip(n);
    LsLineInode(rt, containerId, ns, pre, Decimal(n), rest);
  }
}
