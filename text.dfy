/** The pieces of Python's `str` and `email.utils` that the archiver relies on when
    it post-processes header values and scrubbed text: `str.isspace`,
    `str.strip`, `str.split()` with no separator, `str.startswith`, `str.replace`
    and `email.utils.unquote`. */
module Text {

  /** Python's `str.isspace` for a single character (bidirectional classes
      WS, B and S, and general category Zs). */
  predicate IsSpace(c: char) {
    var n := c as int;
    (0x09 <= n <= 0x0D) || (0x1C <= n <= 0x20) || n == 0x85 || n == 0xA0
    || n == 0x1680 || (0x2000 <= n <= 0x200A) || n == 0x2028 || n == 0x2029
    || n == 0x202F || n == 0x205F || n == 0x3000
  }

  predicate NoSpace(s: string) {
    forall k :: 0 <= k < |s| ==> !IsSpace(s[k])
  }

  predicate StartsWith(s: string, prefix: string) {
    |prefix| <= |s| && s[..|prefix|] == prefix
  }

  predicate EndsWith(s: string, suffix: string) {
    |suffix| <= |s| && s[|s| - |suffix|..] == suffix
  }

  /** The first index at or after `i` that holds no whitespace, or `|s|`. */
  function SkipSpace(s: string, i: nat): (j: nat)
    requires i <= |s|
    ensures i <= j <= |s|
    ensures forall k :: i <= k < j ==> IsSpace(s[k])
    ensures j == |s| || !IsSpace(s[j])
    decreases |s| - i
  {
    if i < |s| && IsSpace(s[i]) then SkipSpace(s, i + 1) else i
  }

  /** The least `j` in `lo..hi` such that only whitespace lies between `j`
      and `hi`. */
  function SkipSpaceBack(s: string, lo: nat, hi: nat): (j: nat)
    requires lo <= hi <= |s|
    ensures lo <= j <= hi
    ensures forall k :: j <= k < hi ==> IsSpace(s[k])
    ensures j == lo || !IsSpace(s[j - 1])
    decreases hi
  {
    if hi > lo && IsSpace(s[hi - 1]) then SkipSpaceBack(s, lo, hi - 1) else hi
  }

  /** `s.strip()`: `s` without its leading and trailing whitespace. The result is
      a contiguous slice of `s`, what was cut on either side is whitespace only,
      and the result neither starts nor ends with whitespace. */
  function Strip(s: string): (r: string)
    ensures exists i, j :: 0 <= i <= j <= |s| && r == s[i..j]
                           && (forall k :: 0 <= k < i ==> IsSpace(s[k]))
                           && (forall k :: j <= k < |s| ==> IsSpace(s[k]))
    ensures r == [] || (!IsSpace(r[0]) && !IsSpace(r[|r| - 1]))
  {
    var i := SkipSpace(s, 0);
    var j := SkipSpaceBack(s, i, |s|);
    s[i..j]
  }

  /** Stripping is idempotent: a stripped string is its own strip. */
  lemma StripIdempotent(s: string)
    ensures Strip(Strip(s)) == Strip(s)
  {
    var r := Strip(s);
    assert SkipSpace(r, 0) == 0;
    assert SkipSpaceBack(r, 0, |r|) == |r|;
    assert r[0..|r|] == r;
  }

  /** Length of the run of non-whitespace characters that starts `s`. */
  function TokenLength(s: string): (n: nat)
    ensures n <= |s| && NoSpace(s[..n])
    ensures n == |s| || IsSpace(s[n])
  {
    if s == [] || IsSpace(s[0]) then 0 else 1 + TokenLength(s[1..])
  }

  /** `s.split()`: the maximal runs of non-whitespace characters of `s`, in order.
      No token is empty and no token holds whitespace. */
  function Split(s: string): (r: seq<string>)
    ensures forall i :: 0 <= i < |r| ==> r[i] != [] && NoSpace(r[i])
    decreases |s|
  {
    if s == [] then []
    else if IsSpace(s[0]) then Split(s[1..])
    else
      var n := TokenLength(s);
      [s[..n]] + Split(s[n..])
  }

  /** `" ".join(tokens)`. */
  function JoinSpaced(tokens: seq<string>): string {
    if tokens == [] then []
    else if |tokens| == 1 then tokens[0]
    else tokens[0] + " " + JoinSpaced(tokens[1..])
  }

  lemma {:induction false} TokenLengthOfToken(t: string, rest: string)
    requires t != [] && NoSpace(t)
    requires rest == [] || IsSpace(rest[0])
    ensures TokenLength(t + rest) == |t|
    decreases |t|
  {
    if |t| > 1 {
      assert (t + rest)[1..] == t[1..] + rest;
      TokenLengthOfToken(t[1..], rest);
    } else {
      assert (t + rest)[1..] == rest;
    }
  }

  /** Splitting undoes joining with single spaces, for tokens that could have
      come out of a split. */
  lemma {:induction false} SplitJoinSpaced(tokens: seq<string>)
    requires forall i :: 0 <= i < |tokens| ==> tokens[i] != [] && NoSpace(tokens[i])
    ensures Split(JoinSpaced(tokens)) == tokens
    decreases |tokens|
  {
    if tokens == [] {
    } else if |tokens| == 1 {
      var t := tokens[0];
      TokenLengthOfToken(t, []);
      assert t + [] == t;
      assert t[..|t|] == t;
      assert Split(t) == [t] + Split(t[|t|..]);
    } else {
      var t := tokens[0];
      var rest := " " + JoinSpaced(tokens[1..]);
      var s := t + rest;
      assert s == JoinSpaced(tokens);
      TokenLengthOfToken(t, rest);
      assert s[..|t|] == t;
      assert s[|t|..] == rest;
      assert Split(s) == [t] + Split(rest);
      assert rest[1..] == JoinSpaced(tokens[1..]);
      assert Split(rest) == Split(JoinSpaced(tokens[1..]));
      SplitJoinSpaced(tokens[1..]);
      assert tokens == [t] + tokens[1..];
    }
  }

  /** `[a, b)` is a maximal run of `s`: non-empty, free of whitespace, and
      bounded on each side by whitespace or an end of `s`. */
  predicate IsRun(s: string, a: nat, b: nat) {
    && a < b <= |s|
    && (forall k :: a <= k < b ==> !IsSpace(s[k]))
    && (a == 0 || IsSpace(s[a - 1]))
    && (b == |s| || IsSpace(s[b]))
  }

  /** A position from which a scan for runs may start: no run of `s` begins
      before it and ends after it. */
  predicate RunBoundary(s: string, i: nat) {
    i <= |s| && (i == 0 || i == |s| || IsSpace(s[i - 1]) || IsSpace(s[i]))
  }

  /** Where the run of non-whitespace characters starting at `i` ends. */
  function RunEnd(s: string, i: nat): (j: nat)
    requires i <= |s|
    ensures i <= j <= |s|
    ensures forall k :: i <= k < j ==> !IsSpace(s[k])
    ensures j == |s| || IsSpace(s[j])
    decreases |s| - i
  {
    if i < |s| && !IsSpace(s[i]) then RunEnd(s, i + 1) else i
  }

  /** The spans of the maximal runs of `s` that lie at or after `i`, left to
      right. */
  function Runs(s: string, i: nat): (r: seq<(nat, nat)>)
    requires RunBoundary(s, i)
    ensures forall j :: 0 <= j < |r| ==> i <= r[j].0 < r[j].1 <= |s|
    decreases |s| - i
  {
    if i == |s| then []
    else if IsSpace(s[i]) then Runs(s, i + 1)
    else [(i, RunEnd(s, i))] + Runs(s, RunEnd(s, i))
  }

  /** Each span of `Runs` is a maximal run, and the spans are disjoint and
      ordered. */
  lemma {:induction false} RunsAreRuns(s: string, i: nat)
    requires RunBoundary(s, i)
    ensures forall j :: 0 <= j < |Runs(s, i)| ==> IsRun(s, Runs(s, i)[j].0, Runs(s, i)[j].1)
    ensures forall j :: 0 <= j < |Runs(s, i)| - 1 ==> Runs(s, i)[j].1 < Runs(s, i)[j + 1].0
    decreases |s| - i
  {
    if i < |s| {
      if IsSpace(s[i]) {
        assert Runs(s, i) == Runs(s, i + 1);
        RunsAreRuns(s, i + 1);
      } else {
        var e := RunEnd(s, i);
        var rest := Runs(s, e);
        RunsAreRuns(s, e);
        var r := [(i, e)] + rest;
        assert r == Runs(s, i);
        assert IsRun(s, i, e);
        forall j | 0 <= j < |r| ensures IsRun(s, r[j].0, r[j].1) {
          if j > 0 {
            assert r[j] == rest[j - 1];
            assert IsRun(s, rest[j - 1].0, rest[j - 1].1);
          } else {
            assert r[0] == (i, e);
          }
        }
        forall j | 0 <= j < |r| - 1 ensures r[j].1 < r[j + 1].0 {
          if j > 0 { assert r[j] == rest[j - 1] && r[j + 1] == rest[j]; }
          else { assert r[1] == rest[0]; assert IsSpace(s[e]); }
        }
      }
    }
  }

  /** Every non-whitespace position at or after `i` lies in one of the runs. */
  lemma {:induction false} RunsCover(s: string, i: nat, k: nat)
    requires RunBoundary(s, i)
    requires i <= k < |s| && !IsSpace(s[k])
    ensures exists j :: 0 <= j < |Runs(s, i)| && Runs(s, i)[j].0 <= k < Runs(s, i)[j].1
    decreases |s| - i
  {
    var r := Runs(s, i);
    if IsSpace(s[i]) {
      RunsCover(s, i + 1, k);
    } else {
      var e := RunEnd(s, i);
      var rest := Runs(s, e);
      assert r == [(i, e)] + rest;
      if k < e {
        assert r[0].0 <= k < r[0].1;
      } else {
        RunsCover(s, e, k);
        var j :| 0 <= j < |rest| && rest[j].0 <= k < rest[j].1;
        assert r[j + 1] == rest[j];
      }
    }
  }

  lemma {:induction false} TokenLengthIsRun(s: string, i: nat)
    requires i <= |s|
    ensures TokenLength(s[i..]) == RunEnd(s, i) - i
    decreases |s| - i
  {
    if i < |s| && !IsSpace(s[i]) {
      assert s[i..][1..] == s[i + 1..];
      TokenLengthIsRun(s, i + 1);
    }
  }

  /** The text under each span, in order. */
  function Texts(s: string, spans: seq<(nat, nat)>): (r: seq<string>)
    requires forall j :: 0 <= j < |spans| ==> spans[j].0 <= spans[j].1 <= |s|
    ensures |r| == |spans|
    ensures forall j :: 0 <= j < |r| ==> r[j] == s[spans[j].0..spans[j].1]
    decreases |spans|
  {
    if spans == [] then [] else [s[spans[0].0..spans[0].1]] + Texts(s, spans[1..])
  }

  /** The split of a suffix is the text under its runs. */
  lemma {:induction false} SplitRuns(s: string, i: nat)
    requires RunBoundary(s, i)
    ensures Split(s[i..]) == Texts(s, Runs(s, i))
    decreases |s| - i
  {
    if i < |s| {
      var t := s[i..];
      if IsSpace(s[i]) {
        assert t[1..] == s[i + 1..];
        assert Runs(s, i) == Runs(s, i + 1);
        SplitRuns(s, i + 1);
      } else {
        var e := RunEnd(s, i);
        var rest := Runs(s, e);
        TokenLengthIsRun(s, i);
        assert t[..e - i] == s[i..e];
        assert t[e - i..] == s[e..];
        assert Split(t) == [s[i..e]] + Split(s[e..]);
        SplitRuns(s, e);
        assert Runs(s, i) == [(i, e)] + rest;
        assert ([(i, e)] + rest)[1..] == rest;
      }
    }
  }

  /** `str.split()` returns exactly the maximal whitespace-free runs of `s`, in
      order: each token is the text of a run, the runs are disjoint and
      ordered, and every non-whitespace character lies in one of them. */
  lemma SplitIsMaximalRuns(s: string)
    ensures var r := Runs(s, 0);
            && |Split(s)| == |r|
            && (forall j :: 0 <= j < |r| ==> Split(s)[j] == s[r[j].0..r[j].1] && IsRun(s, r[j].0, r[j].1))
            && (forall j :: 0 <= j < |r| - 1 ==> r[j].1 < r[j + 1].0)
            && (forall k :: 0 <= k < |s| && !IsSpace(s[k]) ==> exists j :: 0 <= j < |r| && r[j].0 <= k < r[j].1)
  {
    assert s[0..] == s;
    SplitRuns(s, 0);
    RunsAreRuns(s, 0);
    forall k | 0 <= k < |s| && !IsSpace(s[k])
      ensures exists j :: 0 <= j < |Runs(s, 0)| && Runs(s, 0)[j].0 <= k < Runs(s, 0)[j].1
    {
      RunsCover(s, 0, k);
    }
  }

  /** `s.replace(pat, rep)`: every non-overlapping occurrence of `pat`, scanning
      from the left, replaced by `rep`. */
  function Replace(s: string, pat: string, rep: string): (r: string)
    requires pat != []
    ensures |rep| <= |pat| ==> |r| <= |s|
    ensures (forall k :: 0 <= k < |s| ==> s[k] != pat[0]) ==> r == s
    ensures NoSpace(s) && NoSpace(rep) ==> NoSpace(r)
    decreases |s|
  {
    if |s| < |pat| then s
    else if s[..|pat|] == pat then rep + Replace(s[|pat|..], pat, rep)
    else
      var r' := Replace(s[1..], pat, rep);
      [s[0]] + r'
  }

  /** `email.utils.unquote`: a value of at least two characters loses its
      surrounding double quotes (with `\\` and `\"` unescaped) or its
      surrounding angle brackets; any other value is returned as it is. */
  function Unquote(s: string): (r: string)
    ensures |r| <= |s|
    ensures |s| >= 2 && s[0] == '<' && s[|s| - 1] == '>' ==> r == s[1..|s| - 1]
    ensures !(|s| >= 2 && s[0] in "\"<") ==> r == s
    ensures |s| >= 2 && s[0] == '"' && s[|s| - 1] == '"' && '\\' !in s ==> r == s[1..|s| - 1]
    ensures NoSpace(s) ==> NoSpace(r)
  {
    if |s| > 1 then
      if StartsWith(s, "\"") && EndsWith(s, "\"") then
        Replace(Replace(s[1..|s| - 1], "\\\\", "\\"), "\\\"", "\"")
      else if StartsWith(s, "<") && EndsWith(s, ">") then
        s[1..|s| - 1]
      else s
    else s
  }

  /** A message identifier written as `<id>` unquotes to `id`. */
  lemma UnquoteAngle(id: string)
    ensures Unquote("<" + id + ">") == id
  {
    var s := "<" + id + ">";
    assert s[1..|s| - 1] == id;
  }
}
