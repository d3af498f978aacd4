/**
 * `HTTPResponseReader.ReadAsync`: reads a response head from the stream one
 * byte at a time. A line ends when the last two bytes of the line buffer are
 * CR LF; the first empty line ends the head. The byte counter is never reset
 * when the buffer is cleared, so the 4096-byte cap bounds the whole head, not
 * each line: a head is accepted exactly when it fits in 4097 bytes (the 4097th
 * byte passes only because it completes the final CR LF).
 */
module ResponseReader {
  import opened Core
  import opened Text
  import opened HttpResponse

  /** The cap on the byte counter (`length > 4096` fails). */
  const MaxHeadBytes: nat := 4096

  /** What the loop of `ReadAsync` ends with: the lines for `HTTPResponse`, or the exception it throws. */
  datatype HeadRead = Head(lines: seq<string>, consumed: nat) | Threw(failure: Failure)

  // ---------------------------------------------------------------------------
  // Reference definition, one line at a time

  /** Byte `k` of `s` completes a CR LF in a line buffer that starts at `s[0]`. */
  predicate EndsLine(s: seq<Byte>, k: nat)
  {
    1 <= k < |s| && s[k - 1] == CR && s[k] == LF
  }

  /** The first byte at or after `k` that completes a CR LF of the line starting at `s[0]`. */
  function FindCRLF(s: seq<Byte>, k: nat): (r: Option<nat>)
    requires 1 <= k
    ensures r.Some? ==> k <= r.value && EndsLine(s, r.value)
    ensures r.Some? ==> forall j :: k <= j < r.value ==> !EndsLine(s, j)
    ensures r.None? ==> forall j :: k <= j < |s| ==> !EndsLine(s, j)
    decreases |s| - k
  {
    if k >= |s| then None
    else if s[k - 1] == CR && s[k] == LF then Some(k)
    else FindCRLF(s, k + 1)
  }

  lemma {:induction false} FindCRLFIs(s: seq<Byte>, k: nat, t: nat)
    requires 1 <= k <= t && EndsLine(s, t)
    requires forall j :: k <= j < t ==> !EndsLine(s, j)
    ensures FindCRLF(s, k) == Some(t)
    decreases t - k
  {
    if k < t {
      FindCRLFIs(s, k + 1, t);
    }
  }

  /**
   * The reader on the bytes `s` that remain when a new line starts, `offset`
   * bytes into the stream, with `acc` the non-empty lines read so far. A byte
   * that does not complete CR LF fails the cap when `offset` plus its index is
   * 4096 or more.
   */
  function ReadLines(s: seq<Byte>, offset: nat, acc: seq<string>): HeadRead
    decreases |s|
  {
    match FindCRLF(s, 1)
    case None =>
      if s != [] && offset + |s| > MaxHeadBytes then Threw(InvalidData) else Threw(EndOfStream)
    case Some(k) =>
      if offset + k > MaxHeadBytes then Threw(InvalidData)
      else if k == 1 then Head(acc, offset + 2)
      else ReadLines(s[k + 1..], offset + k + 1, acc + [Decode(s[..k - 1])])
  }

  function ReadSpec(input: seq<Byte>): HeadRead
  {
    ReadLines(input, 0, [])
  }

  /** The byte at `t` ends the current line. */
  lemma LineEndsAt(s: seq<Byte>, t: nat, offset: nat, acc: seq<string>)
    requires EndsLine(s, t) && forall j :: 1 <= j < t ==> !EndsLine(s, j)
    requires offset + t <= MaxHeadBytes
    ensures ReadLines(s, offset, acc) ==
              if t == 1 then Head(acc, offset + 2)
              else ReadLines(s[t + 1..], offset + t + 1, acc + [Decode(s[..t - 1])])
  {
    FindCRLFIs(s, 1, t);
  }

  /** The first `n` bytes of the line end no line, and the last of them is past the cap. */
  lemma CapExceededAt(s: seq<Byte>, n: nat, offset: nat, acc: seq<string>)
    requires 1 <= n <= |s| && forall j :: 1 <= j < n ==> !EndsLine(s, j)
    requires offset + n > MaxHeadBytes
    ensures ReadLines(s, offset, acc) == Threw(InvalidData)
  {
    var r := FindCRLF(s, 1);
    assert r.Some? ==> r.value >= n;
  }

  /** The stream ends inside a line that is still within the cap. */
  lemma InputEndsInLine(s: seq<Byte>, offset: nat, acc: seq<string>)
    requires forall j :: 1 <= j < |s| ==> !EndsLine(s, j)
    requires s == [] || offset + |s| <= MaxHeadBytes
    ensures ReadLines(s, offset, acc) == Threw(EndOfStream)
  {
  }

  // ---------------------------------------------------------------------------
  // The loop of ReadAsync

  lemma SliceExtend(s: seq<Byte>, a: nat, b: nat)
    requires a <= b < |s|
    ensures s[a..b + 1] == s[a..b] + [s[b]]
  {
  }

  /** The loop reads the byte at `pos - 1`, which completes CR LF for the line that started at `start`. */
  lemma LineCompleted(input: seq<Byte>, start: nat, pos: nat, requests: seq<string>)
    requires start + 2 <= pos <= |input| && input[pos - 2] == CR && input[pos - 1] == LF
    requires forall j :: 1 <= j < pos - 1 - start ==> !EndsLine(input[start..], j)
    requires pos - 1 <= MaxHeadBytes
    ensures Decode(input[start..pos - 2]) == "" ==> ReadLines(input[start..], start, requests) == Head(requests, pos)
    ensures Decode(input[start..pos - 2]) != "" ==>
              ReadLines(input[start..], start, requests) == ReadLines(input[pos..], pos, requests + [Decode(input[start..pos - 2])])
  {
    var t := pos - 1 - start;
    LineSlices(input, start, pos);
    LineEndsAt(input[start..], t, start, requests);
  }

  /** The line that ends at `pos` and what follows it, seen from the start of the line. */
  lemma LineSlices(input: seq<Byte>, start: nat, pos: nat)
    requires start + 2 <= pos <= |input| && input[pos - 2] == CR && input[pos - 1] == LF
    ensures EndsLine(input[start..], pos - 1 - start)
    ensures input[start..][..pos - 2 - start] == input[start..pos - 2]
    ensures input[start..][pos - start..] == input[pos..]
  {
  }

  /** Lines 59-78: the byte loop, ending with the lines it collected or the exception it throws. */
  method ReadHead(input: seq<Byte>) returns (outcome: HeadRead)
    ensures outcome == ReadSpec(input)
  {
    var line: Option<string> := None;
    var requests: seq<string> := [];
    var buf: seq<Byte> := [];
    var length := 0;
    var pos := 0;
    ghost var start := 0;
    ghost var spec := ReadSpec(input);
    while line != Some("")
      invariant start <= pos <= |input| && length == pos
      invariant buf == input[start..pos]
      invariant line != Some("") ==> forall j :: 1 <= j < |buf| ==> !EndsLine(input[start..], j)
      invariant line != Some("") ==> |buf| > 0 ==> pos <= MaxHeadBytes
      invariant line != Some("") ==> ReadLines(input[start..], start, requests) == spec
      invariant line == Some("") ==> Head(requests, pos) == spec
      decreases |input| - pos
    {
      if pos == |input| {
        InputEndsInLine(input[start..], start, requests);
        return Threw(EndOfStream);
      }
      var value := input[pos];
      SliceExtend(input, start, pos);
      pos := pos + 1;
      buf := buf + [value];
      length := length + 1;
      if |buf| >= 2 && buf[|buf| - 2] == CR && buf[|buf| - 1] == LF {
        LineCompleted(input, start, pos, requests);
        assert buf[..|buf| - 2] == input[start..pos - 2];
        line := Some(Decode(buf[..|buf| - 2]));
        if line != Some("") {
          requests := requests + [line.value];
        }
        buf := [];
        start := pos;
      } else if length > MaxHeadBytes {
        assert forall j :: 1 <= j < |buf| ==> !EndsLine(input[start..], j);
        CapExceededAt(input[start..], |buf|, start, requests);
        return Threw(InvalidData);
      }
    }
    outcome := Head(requests, pos);
  }

  /** `ReadAsync` as a whole: the loop, then `new HTTPResponse(requests)` (line 79). */
  datatype ReadResult = Read(response: HTTPResponse, consumed: nat) | ReadFailed(failure: Failure)

  method ReadAsync(input: seq<Byte>) returns (r: ReadResult)
    ensures r.Read? <==> ReadSpec(input).Head?
    ensures r.Read? ==> fresh(r.response) && r.consumed == ReadSpec(input).consumed
    ensures r.Read? ==> r.response.Head() == Classify(ReadSpec(input).lines)
    ensures r.ReadFailed? ==> r.failure == ReadSpec(input).failure
  {
    var outcome := ReadHead(input);
    match outcome {
      case Head(requests, consumed) =>
        var response := new HTTPResponse(requests);
        r := Read(response, consumed);
      case Threw(failure) =>
        r := ReadFailed(failure);
    }
  }

  // ---------------------------------------------------------------------------
  // What a head looks like on the wire

  predicate NoCRLF(l: seq<Byte>)
  {
    forall j :: 0 < j < |l| ==> !EndsLine(l, j)
  }

  /** Lines a head can carry: non-empty, without an embedded CR LF. */
  predicate ValidLines(lines: seq<seq<Byte>>)
  {
    forall i :: 0 <= i < |lines| ==> lines[i] != [] && NoCRLF(lines[i])
  }

  /** Each line followed by CR LF, then the empty line. */
  function Framed(lines: seq<seq<Byte>>): (f: seq<Byte>)
    ensures |f| >= 2
  {
    if lines == [] then [CR, LF] else lines[0] + [CR, LF] + Framed(lines[1..])
  }

  function DecodeAll(lines: seq<seq<Byte>>): (r: seq<string>)
    ensures |r| == |lines| && forall i :: 0 <= i < |lines| ==> r[i] == Decode(lines[i])
  {
    seq(|lines|, i requires 0 <= i < |lines| => Decode(lines[i]))
  }

  /** Splits the bytes of a non-empty head after its first line. */
  lemma FramedCons(lines: seq<seq<Byte>>, post: seq<Byte>)
    requires lines != []
    ensures Framed(lines) + post == lines[0] + ([CR, LF] + (Framed(lines[1..]) + post))
  {
  }

  /** The first line of a framed head ends at the CR LF after it. */
  lemma FirstLineEnds(l: seq<Byte>, tail: seq<Byte>)
    requires NoCRLF(l)
    ensures var s := l + ([CR, LF] + tail);
            && EndsLine(s, |l| + 1)
            && (forall j :: 1 <= j < |l| + 1 ==> !EndsLine(s, j))
            && s[..|l|] == l && s[|l| + 2..] == tail
  {
    var s := l + ([CR, LF] + tail);
    forall j | 1 <= j < |l| + 1 ensures !EndsLine(s, j) {
      if j < |l| {
        assert !EndsLine(l, j) && s[j - 1] == l[j - 1] && s[j] == l[j];
      } else {
        assert s[j] == CR;
      }
    }
  }

  /** Reading a line followed by CR LF: the reader moves on to what follows, or fails the cap. */
  lemma ReadOneLine(l: seq<Byte>, tail: seq<Byte>, offset: nat, acc: seq<string>)
    requires NoCRLF(l)
    ensures ReadLines(l + ([CR, LF] + tail), offset, acc) ==
              if offset + |l| + 1 > MaxHeadBytes then Threw(InvalidData)
              else if l == [] then Head(acc, offset + 2)
              else ReadLines(tail, offset + |l| + 2, acc + [Decode(l)])
  {
    var s := l + ([CR, LF] + tail);
    FirstLineEnds(l, tail);
    FindCRLFIs(s, 1, |l| + 1);
  }

  lemma DecodeAllCons(lines: seq<seq<Byte>>)
    requires lines != []
    ensures DecodeAll(lines) == [Decode(lines[0])] + DecodeAll(lines[1..])
  {
  }

  lemma ValidLinesTail(lines: seq<seq<Byte>>)
    requires lines != [] && ValidLines(lines)
    ensures lines[0] != [] && NoCRLF(lines[0]) && ValidLines(lines[1..])
  {
    assert forall i :: 0 <= i < |lines| - 1 ==> lines[1..][i] == lines[i + 1];
  }

  /** Reading the first line of a framed head. */
  lemma ReadFramedStep(lines: seq<seq<Byte>>, post: seq<Byte>, offset: nat, acc: seq<string>)
    requires lines != [] && NoCRLF(lines[0])
    ensures ReadLines(Framed(lines) + post, offset, acc) ==
              if offset + |lines[0]| + 1 > MaxHeadBytes then Threw(InvalidData)
              else if lines[0] == [] then Head(acc, offset + 2)
              else ReadLines(Framed(lines[1..]) + post, offset + |lines[0]| + 2, acc + [Decode(lines[0])])
  {
    FramedCons(lines, post);
    ReadOneLine(lines[0], Framed(lines[1..]) + post, offset, acc);
  }

  /** The empty line that ends a head. */
  lemma ReadEmptyLine(post: seq<Byte>, offset: nat, acc: seq<string>)
    ensures ReadLines(Framed([]) + post, offset, acc) ==
              if offset + 2 <= MaxHeadBytes + 1 then Head(acc, offset + 2) else Threw(InvalidData)
  {
    assert Framed([]) + post == [] + ([CR, LF] + post);
    ReadOneLine([], post, offset, acc);
  }

  /** Reading a framed head `offset` bytes into the stream: its lines when it ends within the cap, InvalidData otherwise. */
  lemma {:induction false} ReadFramed(lines: seq<seq<Byte>>, post: seq<Byte>, offset: nat, acc: seq<string>)
    requires ValidLines(lines)
    ensures ReadLines(Framed(lines) + post, offset, acc) ==
              if offset + |Framed(lines)| <= MaxHeadBytes + 1
              then Head(acc + DecodeAll(lines), offset + |Framed(lines)|)
              else Threw(InvalidData)
    decreases |lines|
  {
    if lines == [] {
      ReadEmptyLine(post, offset, acc);
      assert acc + DecodeAll(lines) == acc;
    } else {
      ValidLinesTail(lines);
      if offset + |lines[0]| + 1 <= MaxHeadBytes {
        ReadFramed(lines[1..], post, offset + |lines[0]| + 2, acc + [Decode(lines[0])]);
      }
      ReadFramedCons(lines, post, offset, acc);
    }
  }

  /** `ReadFramed`'s step: the first line, then what is known of the rest. */
  lemma ReadFramedCons(lines: seq<seq<Byte>>, post: seq<Byte>, offset: nat, acc: seq<string>)
    requires lines != [] && lines[0] != [] && NoCRLF(lines[0])
    requires offset + |lines[0]| + 1 <= MaxHeadBytes ==>
               ReadLines(Framed(lines[1..]) + post, offset + |lines[0]| + 2, acc + [Decode(lines[0])]) ==
                 if offset + |lines[0]| + 2 + |Framed(lines[1..])| <= MaxHeadBytes + 1
                 then Head(acc + [Decode(lines[0])] + DecodeAll(lines[1..]), offset + |lines[0]| + 2 + |Framed(lines[1..])|)
                 else Threw(InvalidData)
    ensures ReadLines(Framed(lines) + post, offset, acc) ==
              if offset + |Framed(lines)| <= MaxHeadBytes + 1
              then Head(acc + DecodeAll(lines), offset + |Framed(lines)|)
              else Threw(InvalidData)
  {
    ReadFramedStep(lines, post, offset, acc);
    CombineFramed(lines, offset, acc, ReadLines(Framed(lines) + post, offset, acc),
                  ReadLines(Framed(lines[1..]) + post, offset + |lines[0]| + 2, acc + [Decode(lines[0])]));
  }

  /** The arithmetic of `ReadFramed`'s step: the first line's bytes and the rest's add up to the whole head's. */
  lemma CombineFramed(lines: seq<seq<Byte>>, offset: nat, acc: seq<string>, first: HeadRead, next: HeadRead)
    requires lines != [] && lines[0] != []
    requires first == if offset + |lines[0]| + 1 > MaxHeadBytes then Threw(InvalidData) else next
    requires offset + |lines[0]| + 1 <= MaxHeadBytes ==>
               next == if offset + |lines[0]| + 2 + |Framed(lines[1..])| <= MaxHeadBytes + 1
                       then Head(acc + [Decode(lines[0])] + DecodeAll(lines[1..]), offset + |lines[0]| + 2 + |Framed(lines[1..])|)
                       else Threw(InvalidData)
    ensures first == if offset + |Framed(lines)| <= MaxHeadBytes + 1
                     then Head(acc + DecodeAll(lines), offset + |Framed(lines)|)
                     else Threw(InvalidData)
  {
    assert |Framed(lines)| == |lines[0]| + 2 + |Framed(lines[1..])|;
    DecodeAllCons(lines);
    assert acc + [Decode(lines[0])] + DecodeAll(lines[1..]) == acc + DecodeAll(lines);
  }

  /** Round trip: a framed head within the cap reads back as its lines, and the reader stops right after it. */
  lemma ReadRoundTrip(lines: seq<seq<Byte>>, rest: seq<Byte>)
    requires ValidLines(lines) && |Framed(lines)| <= MaxHeadBytes + 1
    ensures ReadSpec(Framed(lines) + rest) == Head(DecodeAll(lines), |Framed(lines)|)
  {
    ReadFramed(lines, rest, 0, []);
  }

  /** The cap is cumulative: a head longer than 4097 bytes fails however short its lines are. */
  lemma CumulativeCap(lines: seq<seq<Byte>>, rest: seq<Byte>)
    requires ValidLines(lines) && |Framed(lines)| > MaxHeadBytes + 1
    ensures ReadSpec(Framed(lines) + rest) == Threw(InvalidData)
  {
    ReadFramed(lines, rest, 0, []);
  }

  /** Two lines of 3000 bytes each: every line is well under 4096 bytes, and still the read fails. */
  lemma TwoShortLinesExceedTheCap()
    ensures var a := seq(3000, _ => 'a' as int);
            ReadSpec(Framed([a, a])) == Threw(InvalidData)
  {
    var a: seq<Byte> := seq(3000, _ => 'a' as int);
    var lines := [a, a];
    assert ValidLines(lines);
    assert lines[1..] == [a] && [a][1..] == [];
    assert Framed([]) == [CR, LF];
    assert Framed([a]) == a + [CR, LF] + Framed([]);
    assert Framed(lines) == a + [CR, LF] + Framed([a]);
    assert |Framed(lines)| == 6006;
    CumulativeCap(lines, []);
    assert Framed(lines) + [] == Framed(lines);
  }

  /** On success the bytes start with a line, its CR LF and the rest, and the reader goes on with the rest. */
  lemma SplitFirstLine(s: seq<Byte>, offset: nat, acc: seq<string>) returns (l: seq<Byte>, tail: seq<Byte>)
    requires ReadLines(s, offset, acc).Head?
    ensures s == l + ([CR, LF] + tail) && NoCRLF(l)
    ensures offset + |l| + 1 <= MaxHeadBytes
    ensures ReadLines(s, offset, acc) ==
              if l == [] then Head(acc, offset + 2) else ReadLines(tail, offset + |l| + 2, acc + [Decode(l)])
  {
    var k := FindCRLF(s, 1).value;
    l, tail := s[..k - 1], s[k + 1..];
    assert s == l + ([CR, LF] + tail);
    forall j | 0 < j < |l| ensures !(l[j - 1] == CR && l[j] == LF) {
      assert !EndsLine(s, j);
    }
  }

  lemma ValidLinesCons(l: seq<Byte>, more: seq<seq<Byte>>)
    requires l != [] && NoCRLF(l) && ValidLines(more)
    ensures ValidLines([l] + more) && ([l] + more)[1..] == more
  {
    assert forall i :: 1 <= i < |more| + 1 ==> ([l] + more)[i] == more[i - 1];
  }

  lemma PrefixCons(l: seq<Byte>, tail: seq<Byte>, f: seq<Byte>)
    requires |f| <= |tail| && tail[..|f|] == f
    ensures var s := l + ([CR, LF] + tail);
            |l| + 2 + |f| <= |s| && s[..|l| + 2 + |f|] == l + ([CR, LF] + f)
  {
    var s := l + ([CR, LF] + tail);
    assert s[..|l| + 2 + |f|] == l + ([CR, LF] + tail[..|f|]);
  }

  /** Prepending a line to a head the reader went on to read. */
  lemma SoundStep(s: seq<Byte>, offset: nat, acc: seq<string>, l: seq<Byte>, tail: seq<Byte>, more: seq<seq<Byte>>, r: HeadRead)
    requires s == l + ([CR, LF] + tail) && l != [] && NoCRLF(l) && ValidLines(more)
    requires r.Head? && r.consumed == offset + |l| + 2 + |Framed(more)| <= MaxHeadBytes + 1
    requires |Framed(more)| <= |tail| && tail[..|Framed(more)|] == Framed(more)
    requires r.lines == acc + [Decode(l)] + DecodeAll(more)
    ensures ValidLines([l] + more)
    ensures r.consumed == offset + |Framed([l] + more)| <= MaxHeadBytes + 1
    ensures |Framed([l] + more)| <= |s| && s[..|Framed([l] + more)|] == Framed([l] + more)
    ensures r.lines == acc + DecodeAll([l] + more)
  {
    ValidLinesCons(l, more);
    FramedOfCons(l, more);
    PrefixCons(l, tail, Framed(more));
    DecodeAllOfCons(acc, l, more);
  }

  lemma FramedOfCons(l: seq<Byte>, more: seq<seq<Byte>>)
    ensures Framed([l] + more) == l + ([CR, LF] + Framed(more))
  {
    var lines := [l] + more;
    assert lines[0] == l && lines[1..] == more;
    FramedCons(lines, []);
    assert Framed(lines) + [] == Framed(lines);
    assert Framed(more) + [] == Framed(more);
  }

  lemma DecodeAllOfCons(acc: seq<string>, l: seq<Byte>, more: seq<seq<Byte>>)
    ensures acc + [Decode(l)] + DecodeAll(more) == acc + DecodeAll([l] + more)
  {
    var lines := [l] + more;
    assert lines[0] == l && lines[1..] == more;
    DecodeAllCons(lines);
  }

  /** What the reader returns is the framing of the bytes it consumed. */
  lemma {:induction false} ReadLinesSound(s: seq<Byte>, offset: nat, acc: seq<string>) returns (lines: seq<seq<Byte>>)
    requires ReadLines(s, offset, acc).Head?
    ensures ValidLines(lines)
    ensures ReadLines(s, offset, acc).consumed == offset + |Framed(lines)| <= MaxHeadBytes + 1
    ensures |Framed(lines)| <= |s| && s[..|Framed(lines)|] == Framed(lines)
    ensures ReadLines(s, offset, acc).lines == acc + DecodeAll(lines)
    decreases |s|
  {
    var l, tail := SplitFirstLine(s, offset, acc);
    if l == [] {
      lines := [];
      assert s[..2] == [CR, LF];
    } else {
      var more := ReadLinesSound(tail, offset + |l| + 2, acc + [Decode(l)]);
      SoundStep(s, offset, acc, l, tail, more, ReadLines(s, offset, acc));
      lines := [l] + more;
    }
  }

  /** On success the reader has consumed exactly a framed head of at most 4097 bytes, and returns its lines in order. */
  lemma ReadSucceedsOnlyOnAHead(input: seq<Byte>) returns (lines: seq<seq<Byte>>)
    requires ReadSpec(input).Head?
    ensures ValidLines(lines)
    ensures ReadSpec(input).consumed == |Framed(lines)| <= MaxHeadBytes + 1
    ensures ReadSpec(input).consumed <= |input| && input[..ReadSpec(input).consumed] == Framed(lines)
    ensures ReadSpec(input).lines == DecodeAll(lines)
  {
    lines := ReadLinesSound(input, 0, []);
  }

  /** The reader never looks past the head: what follows it does not change the result. */
  lemma ReadStopsAtTheHead(input: seq<Byte>, more: seq<Byte>)
    requires ReadSpec(input).Head? && ReadSpec(input).consumed <= |input|
    ensures ReadSpec(input[..ReadSpec(input).consumed] + more) == ReadSpec(input)
  {
    var lines := ReadSucceedsOnlyOnAHead(input);
    ReadRoundTrip(lines, more);
  }

  lemma {:induction false} ShortInputLines(s: seq<Byte>, offset: nat, acc: seq<string>)
    requires offset + |s| <= MaxHeadBytes
    ensures ReadLines(s, offset, acc) != Threw(InvalidData)
    decreases |s|
  {
    match FindCRLF(s, 1)
    case None =>
    case Some(k) =>
      if k != 1 {
        ShortInputLines(s[k + 1..], offset + k + 1, acc + [Decode(s[..k - 1])]);
      }
  }

  /** InvalidData needs more than 4096 bytes of input. */
  lemma ShortInputIsNeverInvalid(input: seq<Byte>)
    requires |input| <= MaxHeadBytes
    ensures ReadSpec(input) != Threw(InvalidData)
  {
    ShortInputLines(input, 0, []);
  }

  /** 4097 bytes without a CR LF among them always fail with InvalidData. */
  lemma NoTerminatorIsInvalid(input: seq<Byte>)
    requires |input| > MaxHeadBytes
    requires forall j :: 1 <= j <= MaxHeadBytes ==> !EndsLine(input, j)
    ensures ReadSpec(input) == Threw(InvalidData)
  {
    CapExceededAt(input, MaxHeadBytes + 1, 0, []);
  }

  /** A stream that closes before the empty line ends the head fails with EndOfStream. */
  lemma TruncatedHeadIsEndOfStream(lines: seq<seq<Byte>>, m: nat)
    requires ValidLines(lines) && |Framed(lines)| <= MaxHeadBytes + 1 && m < |Framed(lines)|
    ensures ReadSpec(Framed(lines)[..m]) == Threw(EndOfStream)
  {
    var f := Framed(lines);
    var p := f[..m];
    ShortInputIsNeverInvalid(p);
    ReadLinesFailures(p, 0, []);
    if ReadSpec(p).Head? {
      var ls := ReadSucceedsOnlyOnAHead(p);
      var n := ReadSpec(p).consumed;
      assert n <= m;
      assert f == Framed(ls) + f[n..] by {
        assert f[..n] == p[..n];
      }
      assert f + [] == f;
      ReadRoundTrip(ls, f[n..]);
      ReadRoundTrip(lines, []);
      assert false;
    }
  }

  /** The reader throws only the two errors of lines 66 and 76. */
  lemma {:induction false} ReadLinesFailures(s: seq<Byte>, offset: nat, acc: seq<string>)
    ensures ReadLines(s, offset, acc).Threw? ==>
              ReadLines(s, offset, acc).failure in {InvalidData, EndOfStream}
    decreases |s|
  {
    match FindCRLF(s, 1)
    case None =>
    case Some(k) =>
      if k != 1 && offset + k <= MaxHeadBytes {
        ReadLinesFailures(s[k + 1..], offset + k + 1, acc + [Decode(s[..k - 1])]);
      }
  }
}
