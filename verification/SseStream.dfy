// The lines of an event stream, as bufio.Scanner delivers them to the readers of the Go client.
module SseStream {
  // A line this long, before its line end, overflows the scanner's buffer of 4 MiB.
  const MAX_LINE: nat := 4194304

  // What the scanner delivers: the lines, and whether it stopped at a line that is too long.
  datatype Scan = Scan(lines: seq<string>, tooLong: bool)

  // The length of the text up to the first line feed.
  function LineLength(s: string): (n: nat)
    ensures n <= |s| && (n < |s| ==> s[n] == '\n')
  {
    if s == "" || s[0] == '\n' then 0 else 1 + LineLength(s[1..])
  }

  // One carriage return before the line end is dropped.
  function DropCr(line: string): string {
    if line != "" && line[|line| - 1] == '\r' then line[..|line| - 1] else line
  }

  // bufio.ScanLines: an unterminated last line counts unless it is empty.
  function ScanLines(s: string): Scan {
    if s == "" then Scan([], false)
    else
      var n := LineLength(s);
      if n >= MAX_LINE then Scan([], true)
      else if n == |s| then Scan([DropCr(s)], false)
      else
        var rest := ScanLines(s[n + 1..]);
        Scan([DropCr(s[..n])] + rest.lines, rest.tooLong)
  }

  // A text without line feeds, of acceptable length, that does not end in a carriage return.
  predicate IsLine(s: string) {
    '\n' !in s && |s| < 4 * 1024 * 1024 && (s != "" ==> s[|s| - 1] != '\r')
  }

  lemma {:induction false} LineLengthOf(line: string, rest: string)
    requires '\n' !in line
    ensures LineLength(line + "\n" + rest) == |line|
    ensures LineLength(line) == |line|
  {
    if line != "" {
      assert (line + "\n" + rest)[1..] == line[1..] + "\n" + rest;
      assert line[0] in line;
      LineLengthOf(line[1..], rest);
    }
  }

  function Prepend(lines: seq<string>, scan: Scan): Scan {
    Scan(lines + scan.lines, scan.tooLong)
  }

  // Scanning a printed line gives the line back.
  lemma ScanLine(line: string, rest: string)
    requires IsLine(line)
    ensures ScanLines(line + "\n" + rest) == Prepend([line], ScanLines(rest))
  {
    var s := line + "\n" + rest;
    LineLengthOf(line, rest);
    assert s[..|line|] == line && s[|line| + 1..] == rest;
  }

  // So it does if the line end is a carriage return and a line feed.
  lemma ScanCrLf(line: string, rest: string)
    requires '\n' !in line && |line| + 1 < 4 * 1024 * 1024
    ensures ScanLines(line + "\r\n" + rest) == Prepend([line], ScanLines(rest))
  {
    var raw := line + "\r";
    var s := raw + "\n" + rest;
    assert line + "\r\n" + rest == s;
    LineLengthOf(raw, rest);
    assert s[..|raw|] == raw && s[|raw| + 1..] == rest;
    assert DropCr(raw) == line;
  }

  function PrintLines(lines: seq<string>): string {
    if lines == [] then "" else lines[0] + "\n" + PrintLines(lines[1..])
  }

  lemma LineAssoc(line: string, printed: string, rest: string)
    ensures (line + "\n" + printed) + rest == line + "\n" + (printed + rest)
  {
  }

  lemma PrependTwice(a: seq<string>, b: seq<string>, scan: Scan)
    ensures Prepend(a, Prepend(b, scan)) == Prepend(a + b, scan)
  {
    assert a + (b + scan.lines) == a + b + scan.lines;
  }

  lemma {:induction false} ScanPrinted(lines: seq<string>, rest: string)
    requires forall i :: 0 <= i < |lines| ==> IsLine(lines[i])
    ensures ScanLines(PrintLines(lines) + rest) == Prepend(lines, ScanLines(rest))
  {
    if lines == [] {
      assert "" + rest == rest;
      assert [] + ScanLines(rest).lines == ScanLines(rest).lines;
    } else {
      var printed := PrintLines(lines[1..]);
      assert PrintLines(lines) + rest == lines[0] + "\n" + (printed + rest) by {
        LineAssoc(lines[0], printed, rest);
      }
      assert ScanLines(printed + rest) == Prepend(lines[1..], ScanLines(rest)) by {
        ScanPrinted(lines[1..], rest);
      }
      ScanLine(lines[0], printed + rest);
      PrependTwice([lines[0]], lines[1..], ScanLines(rest));
      assert [lines[0]] + lines[1..] == lines;
    }
  }

  // ---------- Cutting a stream ----------

  // The part of a stream after its last line feed.
  function Tail(s: string): (t: string)
    ensures |t| <= |s| && t == s[|s| - |t|..]
  {
    if s == "" then ""
    else if LineLength(s) == |s| then s
    else Tail(s[LineLength(s) + 1..])
  }

  // The lines of a cut stream are the complete lines before the cut, which the whole stream also delivers,
  // followed by what is left of the line that was cut, if anything.
  function CompleteLines(s: string): seq<string> {
    if s == "" || LineLength(s) >= 4 * 1024 * 1024 || LineLength(s) == |s| then []
    else [DropCr(s[..LineLength(s)])] + CompleteLines(s[LineLength(s) + 1..])
  }

  // Whether a line of the stream, the last one included, is too long.
  predicate Overflows(s: string) {
    if s == "" then false
    else LineLength(s) >= 4 * 1024 * 1024 || (LineLength(s) < |s| && Overflows(s[LineLength(s) + 1..]))
  }

  lemma {:induction false} ScanIsComplete(s: string)
    ensures ScanLines(s).tooLong <==> Overflows(s)
    ensures ScanLines(s).lines ==
      CompleteLines(s) + if Overflows(s) || Tail(s) == "" then [] else [DropCr(Tail(s))]
    decreases |s|
  {
    if s != "" && LineLength(s) < 4 * 1024 * 1024 && LineLength(s) < |s| {
      ScanIsComplete(s[LineLength(s) + 1..]);
    }
  }

  // Somewhere in the text stand 4 MiB without a line feed.
  ghost predicate HasLongLine(s: string) {
    exists lo: nat, hi: nat :: lo + 4 * 1024 * 1024 <= hi <= |s| && '\n' !in s[lo..hi]
  }

  lemma {:induction false} LineLengthClean(s: string)
    ensures '\n' !in s[..LineLength(s)]
  {
    if s != "" && s[0] != '\n' {
      LineLengthClean(s[1..]);
      assert s[..LineLength(s)] == [s[0]] + s[1..][..LineLength(s[1..])];
    }
  }

  // The scanner overflows exactly on a text with such a line.
  lemma {:induction false} OverflowsIff(s: string)
    ensures Overflows(s) <==> HasLongLine(s)
    decreases |s|
  {
    var n := LineLength(s);
    LineLengthClean(s);
    if n >= 4 * 1024 * 1024 {
      assert s[0..n] == s[..n];
    } else if n < |s| {
      OverflowsIff(s[n + 1..]);
      LongLineAfter(s, n);
    } else {
      NoLongLine(s);
    }
  }

  lemma NoLongLine(s: string)
    requires |s| < 4 * 1024 * 1024
    ensures !HasLongLine(s)
  {
  }

  lemma InSlice(s: string, lo: nat, hi: nat, n: nat)
    requires lo <= n < hi <= |s|
    ensures s[n] in s[lo..hi]
  {
    assert s[lo..hi][n - lo] == s[n];
  }

  lemma LongLineAfter(s: string, n: nat)
    requires n < |s| && n < 4 * 1024 * 1024 && s[n] == '\n'
    ensures HasLongLine(s) <==> HasLongLine(s[n + 1..])
  {
    var rest := s[n + 1..];
    if HasLongLine(s) {
      var lo: nat, hi: nat :| lo + 4 * 1024 * 1024 <= hi <= |s| && '\n' !in s[lo..hi];
      if lo <= n {
        InSlice(s, lo, hi, n);
      }
      assert rest[lo - n - 1..hi - n - 1] == s[lo..hi];
    }
    if HasLongLine(rest) {
      var lo: nat, hi: nat :| lo + 4 * 1024 * 1024 <= hi <= |rest| && '\n' !in rest[lo..hi];
      assert s[n + 1 + lo..n + 1 + hi] == rest[lo..hi];
    }
  }

  lemma {:induction false} LineLengthExtends(s: string, rest: string)
    ensures LineLength(s) < |s| ==> LineLength(s + rest) == LineLength(s)
    ensures LineLength(s) == |s| ==> LineLength(s + rest) == |s| + LineLength(rest)
  {
    if s == "" {
      assert s + rest == rest;
    } else {
      assert (s + rest)[1..] == s[1..] + rest;
      LineLengthExtends(s[1..], rest);
    }
  }

  // The first line of a text that goes on after it.
  lemma ScanStep(s: string)
    requires s != "" && LineLength(s) < 4 * 1024 * 1024 && LineLength(s) < |s|
    ensures var n := LineLength(s);
      var after := s[n + 1..];
      && ScanLines(s) == Prepend([DropCr(s[..n])], ScanLines(after))
      && CompleteLines(s) == [DropCr(s[..n])] + CompleteLines(after)
      && Tail(s) == Tail(after) && (Overflows(s) <==> Overflows(after))
  {
    hide LineLength, DropCr;
  }

  lemma ScanLast(s: string, rest: string)
    requires s == "" || LineLength(s) >= 4 * 1024 * 1024 || LineLength(s) == |s|
    ensures ScanLines(s + rest) ==
      if Overflows(s) then Scan(CompleteLines(s), true) else Prepend(CompleteLines(s), ScanLines(Tail(s) + rest))
  {
    hide DropCr;
    LineLengthExtends(s, rest);
    assert [] + ScanLines(s + rest).lines == ScanLines(s + rest).lines;
  }

  // After an overflow nothing more is read; otherwise the whole stream delivers the same complete lines and then
  // goes on with the cut line completed.
  lemma {:induction false} CutLines(s: string, rest: string)
    ensures ScanLines(s + rest) ==
      if Overflows(s) then Scan(CompleteLines(s), true) else Prepend(CompleteLines(s), ScanLines(Tail(s) + rest))
    decreases |s|
  {
    hide ScanLines, CompleteLines, Overflows, Tail, DropCr, LineLength;
    var n := LineLength(s);
    if s != "" && n < 4 * 1024 * 1024 && n < |s| {
      var line, after := DropCr(s[..n]), s[n + 1..];
      LineLengthExtends(s, rest);
      ScanStep(s);
      ScanStep(s + rest);
      CutLines(after, rest);
      assert (s + rest)[..n] == s[..n] && (s + rest)[n + 1..] == after + rest;
      if !Overflows(after) {
        PrependTwice([line], CompleteLines(after), ScanLines(Tail(after) + rest));
      }
    } else {
      ScanLast(s, rest);
    }
  }
}
