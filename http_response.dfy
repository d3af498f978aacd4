/**
 * `HTTPResponse`: the status line and header map built from the lines of a
 * response head. The two regular expressions of the source are written out
 * as recognisers that return what a .NET backtracking match returns in its
 * groups:
 *
 *   status line  ^HTTP/(1.\d) (\d+) .*$           (`.` is any character but '\n')
 *   header line  ^(\S*):\s*(.*)\s*$
 */
module HttpResponse {
  import opened Core
  import opened Text

  // ---------------------------------------------------------------------------
  // Scanning helpers

  /** The end of the run of digits that starts at `k`. */
  function DigitRunEnd(s: string, k: nat): (e: nat)
    requires k <= |s|
    ensures k <= e <= |s|
    ensures forall j :: k <= j < e ==> IsDigit(s[j])
    ensures e < |s| ==> !IsDigit(s[e])
    decreases |s| - k
  {
    if k < |s| && IsDigit(s[k]) then DigitRunEnd(s, k + 1) else k
  }

  /** The end of the run of non-whitespace characters (`\S*`) that starts at `k`. */
  function NonSpaceRunEnd(s: string, k: nat): (e: nat)
    requires k <= |s|
    ensures k <= e <= |s|
    ensures forall j :: k <= j < e ==> !IsRegexSpace(s[j])
    ensures e < |s| ==> IsRegexSpace(s[e])
    decreases |s| - k
  {
    if k < |s| && !IsRegexSpace(s[k]) then NonSpaceRunEnd(s, k + 1) else k
  }

  /** The end of the run of whitespace characters (`\s*`) that starts at `k`. */
  function SpaceRunEnd(s: string, k: nat): (e: nat)
    requires k <= |s|
    ensures k <= e <= |s|
    ensures forall j :: k <= j < e ==> IsRegexSpace(s[j])
    ensures e < |s| ==> !IsRegexSpace(s[e])
    decreases |s| - k
  {
    if k < |s| && IsRegexSpace(s[k]) then SpaceRunEnd(s, k + 1) else k
  }

  /** The first line feed at or after `k`, or the end of `s` (where `.*` stops). */
  function NewlineFrom(s: string, k: nat): (e: nat)
    requires k <= |s|
    ensures k <= e <= |s|
    ensures forall j :: k <= j < e ==> s[j] != '\n'
    ensures e < |s| ==> s[e] == '\n'
    decreases |s| - k
  {
    if k < |s| && s[k] != '\n' then NewlineFrom(s, k + 1) else k
  }

  /** The last colon before index `w`. */
  function LastColonBefore(s: string, w: nat): (r: Option<nat>)
    requires w <= |s|
    ensures r.Some? ==> r.value < w && s[r.value] == ':' && forall j :: r.value < j < w ==> s[j] != ':'
    ensures r.None? ==> forall j :: 0 <= j < w ==> s[j] != ':'
  {
    if w == 0 then None
    else if s[w - 1] == ':' then Some(w - 1)
    else LastColonBefore(s, w - 1)
  }

  // ---------------------------------------------------------------------------
  // The status-line pattern

  datatype StatusLine = StatusLine(version: string, status: nat)

  /** `.*$` over the whole of `r`: no line feed, except possibly as the last character. */
  predicate RestOfLine(r: string)
  {
    forall i :: 0 <= i < |r| - 1 ==> r[i] != '\n'
  }

  /** What the group `(1.\d)` accepts. */
  predicate IsVersion(v: string)
  {
    |v| == 3 && v[0] == '1' && v[1] != '\n' && IsDigit(v[2])
  }

  /**
   * `^HTTP/(1.\d) (\d+) .*$`. The digit run must be followed by a space, so
   * `(\d+)` can only be the maximal run of digits after the version.
   */
  function MatchStatusLine(s: string): (r: Option<StatusLine>)
    ensures r.Some? ==> 11 <= |s| && s[..5] == "HTTP/" && s[5..8] == r.value.version && IsVersion(r.value.version)
  {
    if 9 <= |s| && s[..5] == "HTTP/" && IsVersion(s[5..8]) && s[8] == ' ' then
      var m := DigitRunEnd(s, 9);
      if 9 < m < |s| && s[m] == ' ' && RestOfLine(s[m + 1..]) then
        Some(StatusLine(s[5..8], DigitsValue(s[9..m])))
      else None
    else None
  }

  /** The text of a status line, as a server writes it. */
  function StatusLineText(version: string, status: nat, reason: string): string
  {
    "HTTP/" + version + " " + NatToString(status) + " " + reason
  }

  /** Every status line a server writes is recognised, with its version and status. */
  lemma StatusLineRoundTrip(version: string, status: nat, reason: string)
    requires IsVersion(version)
    requires forall i :: 0 <= i < |reason| ==> reason[i] != '\n'
    ensures MatchStatusLine(StatusLineText(version, status, reason)) == Some(StatusLine(version, status))
  {
    var s := StatusLineText(version, status, reason);
    var digits := NatToString(status);
    assert s == "HTTP/" + version + " " + digits + " " + reason;
    assert s[..5] == "HTTP/";
    assert s[5..8] == version;
    var m := 9 + |digits|;
    assert s[9..m] == digits;
    assert s[m] == ' ';
    assert DigitRunEnd(s, 9) == m;
    assert s[m + 1..] == reason;
    DigitsValueOfNatToString(status);
  }

  /** A recognised status line consists of exactly the parts the pattern names. */
  lemma StatusLineShape(s: string)
    requires MatchStatusLine(s).Some?
    ensures exists digits: string, reason: string ::
              && s == "HTTP/" + MatchStatusLine(s).value.version + " " + digits + " " + reason
              && digits != [] && AllDigits(digits)
              && DigitsValue(digits) == MatchStatusLine(s).value.status
              && RestOfLine(reason)
  {
    var m := DigitRunEnd(s, 9);
    var digits, reason := s[9..m], s[m + 1..];
    assert s == s[..5] + s[5..8] + " " + digits + " " + reason;
  }

  // ---------------------------------------------------------------------------
  // The header-line pattern

  datatype HeaderLine = HeaderLine(name: string, value: string)

  /**
   * `^(\S*):\s*(.*)\s*$`. The name is the leading run of non-whitespace up to
   * its last colon; the value starts after the whitespace that follows the
   * colon and runs to the first line feed, keeping trailing whitespace (the
   * greedy `(.*)` takes it before the final `\s*` can); what follows the
   * value must be whitespace. When the match fails at the last colon it fails
   * at every earlier one too, so nothing else is tried.
   */
  function MatchHeaderLine(s: string): (r: Option<HeaderLine>)
    ensures r.Some? ==> HasNoSpace(r.value.name) && forall i :: 0 <= i < |r.value.value| ==> r.value.value[i] != '\n'
  {
    var w := NonSpaceRunEnd(s, 0);
    match LastColonBefore(s, w)
    case None => None
    case Some(c) =>
      var a := SpaceRunEnd(s, c + 1);
      var e := NewlineFrom(s, a);
      if AllSpace(s[e..]) then Some(HeaderLine(s[..c], s[a..e])) else None
  }

  /** A `Name: value` line, as a server writes it, is recognised with its name and value. */
  lemma HeaderLineRoundTrip(name: string, value: string)
    requires HasNoSpace(name)
    requires forall i :: 0 <= i < |value| ==> value[i] != '\n'
    requires value == [] || !IsRegexSpace(value[0])
    ensures MatchHeaderLine(name + ": " + value) == Some(HeaderLine(name, value))
  {
    var s := name + ": " + value;
    var n := |name|;
    assert s[n] == ':' && s[n + 1] == ' ';
    assert NonSpaceRunEnd(s, 0) == n + 1;
    assert LastColonBefore(s, n + 1) == Some(n);
    assert SpaceRunEnd(s, n + 1) == n + 2;
    assert NewlineFrom(s, n + 2) == |s|;
    assert AllSpace(s[|s|..]);
    assert s[..n] == name;
    assert s[n + 2..|s|] == value;
    assert MatchHeaderLine(s) == Some(HeaderLine(s[..n], s[n + 2..|s|]));
  }

  /** A recognised header line is its name, a colon, whitespace, its value and trailing whitespace. */
  lemma HeaderLineShape(s: string) returns (gap: string, tail: string)
    requires MatchHeaderLine(s).Some?
    ensures s == MatchHeaderLine(s).value.name + ":" + gap + MatchHeaderLine(s).value.value + tail
    ensures AllSpace(gap) && AllSpace(tail)
  {
    var w := NonSpaceRunEnd(s, 0);
    var c := LastColonBefore(s, w).value;
    var a := SpaceRunEnd(s, c + 1);
    var e := NewlineFrom(s, a);
    gap, tail := s[c + 1..a], s[e..];
    assert MatchHeaderLine(s).value == HeaderLine(s[..c], s[a..e]);
    assert [s[c]] == ":";
    FiveParts(s, c, a, e);
  }

  /** `s` cut at `c`, `c + 1`, `a` and `e`, and put back together. */
  lemma FiveParts(s: string, c: nat, a: nat, e: nat)
    requires c < a <= e <= |s|
    ensures s == s[..c] + [s[c]] + s[c + 1..a] + s[a..e] + s[e..]
  {
    assert s[..c] + [s[c]] == s[..c + 1];
    assert s[..c + 1] + s[c + 1..a] == s[..a];
    assert s[..a] + s[a..e] == s[..e];
  }

  // ---------------------------------------------------------------------------
  // Classifying the lines of a head

  /** The value of an `HTTPResponse`: `Version` is `None` until a status line is seen. */
  datatype ResponseHead = ResponseHead(version: Option<string>, status: int, headers: map<string, string>)

  const EmptyHead := ResponseHead(None, 0, map[])

  /** One iteration of the constructor's loop: status lines take precedence over header lines. */
  function Step(h: ResponseHead, line: string): ResponseHead
  {
    match MatchStatusLine(line)
    case Some(sl) => h.(version := Some(sl.version), status := sl.status)
    case None =>
      match MatchHeaderLine(line)
      case Some(hl) => h.(headers := h.headers[ToUpperInvariant(hl.name) := hl.value])
      case None => h
  }

  /** The lines applied in order, starting from `h`. */
  function Run(h: ResponseHead, lines: seq<string>): ResponseHead
    decreases |lines|
  {
    if lines == [] then h else Step(Run(h, lines[..|lines| - 1]), lines[|lines| - 1])
  }

  function Classify(lines: seq<string>): ResponseHead
  {
    Run(EmptyHead, lines)
  }

  predicate IsStatusLine(line: string)
  {
    MatchStatusLine(line).Some?
  }

  /** `line` is stored in the header map, under `key`. */
  predicate DefinesHeader(line: string, key: string)
  {
    && MatchStatusLine(line).None?
    && MatchHeaderLine(line).Some?
    && ToUpperInvariant(MatchHeaderLine(line).value.name) == key
  }

  predicate Ignored(line: string)
  {
    MatchStatusLine(line).None? && MatchHeaderLine(line).None?
  }

  lemma {:induction false} RunConcat(h: ResponseHead, a: seq<string>, b: seq<string>)
    ensures Run(h, a + b) == Run(Run(h, a), b)
    decreases |b|
  {
    if b == [] {
      assert a + b == a;
    } else {
      var b' := b[..|b| - 1];
      assert (a + b)[..|a + b| - 1] == a + b';
      RunConcat(h, a, b');
    }
  }

  /** A line that matches neither pattern may be dropped anywhere without changing the result. */
  lemma IgnoredLineIsInvisible(a: seq<string>, line: string, b: seq<string>)
    requires Ignored(line)
    ensures Classify(a + [line] + b) == Classify(a + b)
  {
    RunConcat(EmptyHead, a + [line], b);
    RunConcat(EmptyHead, a, b);
    assert (a + [line])[..|a + [line]| - 1] == a;
  }

  /** Every key of the header map is upper case. */
  lemma {:induction false} HeaderKeysAreUpperCase(lines: seq<string>)
    ensures forall k :: k in Classify(lines).headers ==> IsUpperCase(k)
    decreases |lines|
  {
    if lines != [] {
      HeaderKeysAreUpperCase(lines[..|lines| - 1]);
      var hl := MatchHeaderLine(lines[|lines| - 1]);
      if hl.Some? {
        UpperIsUpperCase(hl.value.name);
      }
    }
  }

  /** `é: x` is stored under `É`: the name is upper-cased beyond ASCII too. */
  lemma AccentedNameIsUpperCased()
    ensures Classify(["\U{E9}: x"]).headers == map["\U{C9}" := "x"]
  {
    var line := "\U{E9}: x";
    assert HasNoSpace("\U{E9}");
    HeaderLineRoundTrip("\U{E9}", "x");
    assert "\U{E9}" + ": " + "x" == line;
    assert MatchStatusLine(line).None?;
    assert ToUpperInvariant("\U{E9}") == "\U{C9}";
    assert Run(EmptyHead, [line]) == Step(Run(EmptyHead, []), line) by {
      assert [line][..0] == [];
    }
    assert Step(EmptyHead, line).headers == map[][ToUpperInvariant("\U{E9}") := "x"];
  }

  /** A key is in the header map exactly when some line defines a header under it. */
  lemma {:induction false} HeaderPresence(lines: seq<string>, key: string)
    ensures key in Classify(lines).headers <==> exists i :: 0 <= i < |lines| && DefinesHeader(lines[i], key)
    decreases |lines|
  {
    if lines != [] {
      var init, last := lines[..|lines| - 1], lines[|lines| - 1];
      HeaderPresence(init, key);
      var before := Classify(init).headers;
      assert Classify(lines) == Step(Classify(init), last);
      if DefinesHeader(last, key) {
        assert key in Classify(lines).headers;
      } else {
        assert key in Classify(lines).headers <==> key in before by {
          if MatchStatusLine(last).None? && MatchHeaderLine(last).Some? {
            assert ToUpperInvariant(MatchHeaderLine(last).value.name) != key;
          }
        }
        assert forall i :: 0 <= i < |init| ==> init[i] == lines[i];
      }
    }
  }

  /** For duplicate names (compared case-insensitively) the last line's value is kept. */
  lemma {:induction false} LastHeaderWins(lines: seq<string>, key: string, i: nat)
    requires i < |lines| && DefinesHeader(lines[i], key)
    requires forall j :: i < j < |lines| ==> !DefinesHeader(lines[j], key)
    ensures key in Classify(lines).headers
    ensures Classify(lines).headers[key] == MatchHeaderLine(lines[i]).value.value
    decreases |lines|
  {
    var init := lines[..|lines| - 1];
    if i < |lines| - 1 {
      assert init[i] == lines[i];
      LastHeaderWins(init, key, i);
    }
  }

  /** `Version` and `Status` come from the last status line. */
  lemma {:induction false} LastStatusLineWins(lines: seq<string>, i: nat)
    requires i < |lines| && IsStatusLine(lines[i])
    requires forall j :: i < j < |lines| ==> !IsStatusLine(lines[j])
    ensures Classify(lines).version == Some(MatchStatusLine(lines[i]).value.version)
    ensures Classify(lines).status == MatchStatusLine(lines[i]).value.status
    decreases |lines|
  {
    var init := lines[..|lines| - 1];
    if i < |lines| - 1 {
      assert init[i] == lines[i];
      LastStatusLineWins(init, i);
    }
  }

  /** Without a status line, `Version` stays null and `Status` stays 0. */
  lemma {:induction false} NoStatusLine(lines: seq<string>)
    requires forall j :: 0 <= j < |lines| ==> !IsStatusLine(lines[j])
    ensures Classify(lines).version == None && Classify(lines).status == 0
    decreases |lines|
  {
    if lines != [] {
      var init := lines[..|lines| - 1];
      assert forall j :: 0 <= j < |init| ==> init[j] == lines[j];
      NoStatusLine(init);
    }
  }

  /** `HTTPResponse`, whose constructor fills its properties from the lines of a head. */
  class HTTPResponse {
    var version: Option<string>
    var status: int
    var headers: map<string, string>

    function Head(): ResponseHead
      reads this
    {
      ResponseHead(version, status, headers)
    }

    constructor (requests: seq<string>)
      ensures Head() == Classify(requests)
    {
      headers := map[];
      version := None;
      status := 0;
      new;
      for i := 0 to |requests|
        invariant Head() == Classify(requests[..i])
      {
        var req := requests[i];
        assert requests[..i + 1][..i] == requests[..i];
        match MatchStatusLine(req) {
          case Some(m) =>
            version := Some(m.version);
            status := m.status;
          case None =>
            match MatchHeaderLine(req) {
              case Some(m) => headers := headers[ToUpperInvariant(m.name) := m.value];
              case None =>
            }
        }
      }
      assert requests[..|requests|] == requests;
    }
  }
}
