// String operations of the modelled programs, on sequences of characters.
module Text {
  import opened Wrappers

  const SPACE_TAB: set<char> := {' ', '\t'}

  // The characters Python's argument-less str.strip() removes.
  const WHITESPACE: set<char> :=
    {' ', '\t', '\n', '\r', '\U{0B}', '\U{0C}', '\U{1C}', '\U{1D}', '\U{1E}', '\U{1F}', '\U{85}', '\U{A0}',
     '\U{1680}', '\U{2000}', '\U{2001}', '\U{2002}', '\U{2003}', '\U{2004}', '\U{2005}', '\U{2006}',
     '\U{2007}', '\U{2008}', '\U{2009}', '\U{200A}', '\U{2028}', '\U{2029}', '\U{202F}', '\U{205F}', '\U{3000}'}

  // The same by code points: 9 to 13, 28 to 32, and those outside ASCII.
  predicate IsWhite(c: char) {
    var n := c as int;
    9 <= n <= 13 || 28 <= n <= 32 || n == 0x85 || n == 0xA0 || n == 0x1680 || 0x2000 <= n <= 0x200A ||
    n == 0x2028 || n == 0x2029 || n == 0x202F || n == 0x205F || n == 0x3000
  }

  lemma WhitespaceIs(c: char)
    ensures c in WHITESPACE <==> IsWhite(c)
  {
  }

  lemma Assoc<T>(a: seq<T>, b: seq<T>, c: seq<T>)
    ensures a + (b + c) == a + b + c
  {
  }

  lemma ConcatTail<T>(a: seq<T>, b: seq<T>)
    requires a != []
    ensures (a + b)[0] == a[0] && (a + b)[1..] == a[1..] + b
  {
  }

  function StripLeft(s: string, cs: set<char>): string {
    if s != "" && s[0] in cs then StripLeft(s[1..], cs) else s
  }

  function StripRight(s: string, cs: set<char>): string {
    if s != "" && s[|s| - 1] in cs then StripRight(s[..|s| - 1], cs) else s
  }

  lemma {:induction false} StripLeftSplits(s: string, cs: set<char>)
    ensures var r := StripLeft(s, cs);
      && |r| <= |s| && r == s[|s| - |r|..]
      && (r != "" ==> r[0] !in cs)
      && forall i :: 0 <= i < |s| - |r| ==> s[i] in cs
  {
    if s != "" && s[0] in cs {
      var r := StripLeft(s[1..], cs);
      StripLeftSplits(s[1..], cs);
      SuffixOfTail(s, r);
      forall i | 0 <= i < |s| - |r| ensures s[i] in cs {
        assert i > 0 ==> s[i] == s[1..][i - 1];
      }
    }
  }

  lemma SuffixOfTail(s: string, r: string)
    requires s != "" && |r| < |s| && r == s[1..][|s| - 1 - |r|..]
    ensures r == s[|s| - |r|..]
  {
  }

  lemma {:induction false} StripRightSplits(s: string, cs: set<char>)
    ensures var r := StripRight(s, cs);
      && |r| <= |s| && r == s[..|r|]
      && (r != "" ==> r[|r| - 1] !in cs)
      && forall i :: |r| <= i < |s| ==> s[i] in cs
  {
    if s != "" && s[|s| - 1] in cs {
      StripRightSplits(s[..|s| - 1], cs);
    }
  }

  function Strip(s: string, cs: set<char>): string {
    StripRight(StripLeft(s, cs), cs)
  }

  predicate AllIn(s: string, cs: set<char>) {
    forall i :: 0 <= i < |s| ==> s[i] in cs
  }

  lemma {:induction false} StripLeftOf(p: string, m: string, cs: set<char>)
    requires AllIn(p, cs) && (m != "" ==> m[0] !in cs)
    ensures StripLeft(p + m, cs) == m
  {
    if p == "" {
      assert p + m == m;
    } else {
      assert (p + m)[1..] == p[1..] + m;
      StripLeftOf(p[1..], m, cs);
    }
  }

  lemma {:induction false} StripRightOf(m: string, q: string, cs: set<char>)
    requires AllIn(q, cs) && (m != "" ==> m[|m| - 1] !in cs)
    ensures StripRight(m + q, cs) == m
  {
    if q == "" {
      assert m + q == m;
    } else {
      var s := m + q;
      assert s[|s| - 1] == q[|q| - 1];
      assert s[..|s| - 1] == m + q[..|q| - 1];
      StripRightOf(m, q[..|q| - 1], cs);
    }
  }

  lemma StripPadded(p: string, m: string, q: string, cs: set<char>)
    requires AllIn(p, cs) && AllIn(q, cs)
    requires m != "" && m[0] !in cs && m[|m| - 1] !in cs
    ensures Strip(p + m + q, cs) == m
  {
    assert p + m + q == p + (m + q);
    StripLeftOf(p, m + q, cs);
    StripRightOf(m, q, cs);
  }

  lemma StripRightBlank(q: string, cs: set<char>)
    requires AllIn(q, cs)
    ensures StripRight(q, cs) == "" && StripLeft(q, cs) == ""
  {
    assert "" + q == q && q + "" == q;
    StripRightOf("", q, cs);
    StripLeftOf(q, "", cs);
  }

  // What is left is in the text, begins and ends with other characters, and is left alone by stripping again.
  lemma StripTwice(s: string, cs: set<char>)
    ensures var r := Strip(s, cs);
      && Strip(r, cs) == r
      && (r != "" ==> r[0] !in cs && r[|r| - 1] !in cs)
      && forall c :: c in r ==> c in s
  {
    var left := StripLeft(s, cs);
    var r := StripRight(left, cs);
    StripLeftSplits(s, cs);
    StripRightSplits(left, cs);
    if r != "" {
      assert r[0] == left[0];
      StripLeftOf("", r, cs);
      StripRightOf(r, "", cs);
      assert "" + r == r && r + "" == r;
    }
  }

  predicate AllWhite(s: string) {
    forall i :: 0 <= i < |s| ==> IsWhite(s[i])
  }

  // Where the first character that is not white space stands.
  function InkStart(s: string): (n: nat)
    requires !AllWhite(s)
    ensures n < |s| && !IsWhite(s[n]) && forall i :: 0 <= i < n ==> IsWhite(s[i])
  {
    if IsWhite(s[0]) then
      assert !AllWhite(s[1..]) by {
        var i :| 0 <= i < |s| && !IsWhite(s[i]);
        assert s[1..][i - 1] == s[i];
      }
      1 + InkStart(s[1..])
    else 0
  }

  // Where the last one ends.
  function InkEnd(s: string): (n: nat)
    requires !AllWhite(s)
    ensures 0 < n <= |s| && !IsWhite(s[n - 1]) && forall i :: n <= i < |s| ==> IsWhite(s[i])
  {
    if IsWhite(s[|s| - 1]) then
      assert !AllWhite(s[..|s| - 1]) by {
        var i :| 0 <= i < |s| && !IsWhite(s[i]);
        assert s[..|s| - 1][i] == s[i];
      }
      InkEnd(s[..|s| - 1])
    else |s|
  }

  lemma InkOrder(s: string)
    requires !AllWhite(s)
    ensures InkStart(s) < InkEnd(s)
  {
  }

  // Stripping keeps what stands between them.
  lemma StripInk(s: string)
    requires !AllWhite(s)
    ensures InkStart(s) < InkEnd(s) && Strip(s, WHITESPACE) == s[InkStart(s)..InkEnd(s)]
  {
    InkOrder(s);
    StripBetween(s, InkStart(s), InkEnd(s));
  }

  lemma StripBetween(s: string, lo: nat, hi: nat)
    requires lo < hi <= |s| && !IsWhite(s[lo]) && !IsWhite(s[hi - 1])
    requires AllWhite(s[..lo]) && AllWhite(s[hi..])
    ensures Strip(s, WHITESPACE) == s[lo..hi]
  {
    hide AllWhite;
    WhiteIn(s[..lo]);
    WhiteIn(s[hi..]);
    WhitespaceIs(s[lo]);
    WhitespaceIs(s[hi - 1]);
    assert s == s[..lo] + s[lo..hi] + s[hi..];
    StripPadded(s[..lo], s[lo..hi], s[hi..], WHITESPACE);
  }

  lemma WhiteIn(s: string)
    requires AllWhite(s)
    ensures AllIn(s, WHITESPACE)
  {
    forall i | 0 <= i < |s| ensures s[i] in WHITESPACE {
      WhitespaceIs(s[i]);
    }
  }

  lemma StripWhite(s: string)
    requires AllWhite(s)
    ensures Strip(s, WHITESPACE) == ""
  {
    WhiteIn(s);
    StripRightBlank(s, WHITESPACE);
    assert StripRight("", WHITESPACE) == "";
  }

  // Padding a stripped text does not matter.
  lemma StripCell(c: string, p: string, q: string, cs: set<char>)
    requires Strip(c, cs) == c && AllIn(p, cs) && AllIn(q, cs)
    ensures Strip(p + c + q, cs) == c
  {
    StripTwice(c, cs);
    if c == "" {
      assert p + c + q == p + q;
      StripRightBlank(p + q, cs);
    } else {
      StripPadded(p, c, q, cs);
    }
  }

  // What is before and after the first c.
  function Cut(s: string, c: char): Option<(string, string)> {
    if s == "" then None
    else if s[0] == c then Some(("", s[1..]))
    else match Cut(s[1..], c) {
      case None => None
      case Some((before, after)) => Some(([s[0]] + before, after))
    }
  }

  lemma {:induction false} CutOf(before: string, c: char, after: string)
    requires c !in before
    ensures Cut(before + [c] + after, c) == Some((before, after))
  {
    var s := before + [c] + after;
    if before == "" {
      assert s[1..] == after;
    } else {
      assert s[1..] == before[1..] + [c] + after;
      assert before[0] in before;
      CutOf(before[1..], c, after);
      assert [before[0]] + before[1..] == before;
    }
  }

  lemma {:induction false} CutParts(s: string, c: char)
    ensures match Cut(s, c)
      case None => c !in s
      case Some((before, after)) => s == before + [c] + after && c !in before && |after| < |s|
  {
    if s != "" && s[0] != c {
      CutParts(s[1..], c);
      assert s == [s[0]] + s[1..];
    }
  }

  // ---------- Lower case and substrings ----------

  // s.lower() on ASCII letters.
  function Lower(s: string): string {
    seq(|s|, i requires 0 <= i < |s| => if 'A' <= s[i] <= 'Z' then s[i] - 'A' + 'a' else s[i])
  }

  lemma LowerLetters()
    ensures Lower("ABCDEFGHIJKLMNOPQRSTUVWXYZ") == "abcdefghijklmnopqrstuvwxyz"
  {
  }

  lemma LowerOthers(s: string)
    requires forall i :: 0 <= i < |s| ==> s[i] < 'A' || s[i] > 'Z'
    ensures Lower(s) == s
  {
  }

  lemma LowerConcat(a: string, b: string)
    ensures Lower(a + b) == Lower(a) + Lower(b)
  {
  }

  predicate EndsWith(s: string, suffix: string) {
    |suffix| <= |s| && s[|s| - |suffix|..] == suffix
  }

  predicate Contains(s: string, part: string) {
    part <= s || (s != "" && Contains(s[1..], part))
  }

  // s.replace("\\", "/").
  function Slashed(name: string): string {
    seq(|name|, i requires 0 <= i < |name| => if name[i] == '\\' then '/' else name[i])
  }

  function Join(sep: string, parts: seq<string>): string {
    if parts == [] then ""
    else if |parts| == 1 then parts[0]
    else parts[0] + sep + Join(sep, parts[1..])
  }

  // str.split(c) for a single character c: always at least one piece.
  function Split(s: string, c: char): (r: seq<string>)
    ensures r != []
    ensures forall i :: 0 <= i < |r| ==> c !in r[i]
  {
    if s == "" then [""]
    else
      var rest := Split(s[1..], c);
      if s[0] == c then [""] + rest else [[s[0]] + rest[0]] + rest[1..]
  }

  // Splitting on a character undoes joining with it when no piece contains it.
  lemma {:induction false} SplitJoin(parts: seq<string>, c: char)
    requires parts != []
    requires forall i :: 0 <= i < |parts| ==> c !in parts[i]
    ensures Split(Join([c], parts), c) == parts
    decreases |parts|, |parts[0]|
  {
    var p := parts[0];
    var joined := Join([c], parts);
    if p == "" {
      if |parts| == 1 {
      } else {
        assert joined[0] == c && joined[1..] == Join([c], parts[1..]);
        SplitJoin(parts[1..], c);
        assert [""] + parts[1..] == parts;
      }
    } else {
      var shorter := [p[1..]] + parts[1..];
      assert joined == [p[0]] + Join([c], shorter) by {
        assert shorter[1..] == parts[1..];
        assert p == [p[0]] + p[1..];
      }
      assert joined[1..] == Join([c], shorter);
      assert joined[0] == p[0] && p[0] in p;
      forall i | 0 <= i < |shorter| ensures c !in shorter[i] {}
      SplitJoin(shorter, c);
      assert [[p[0]] + p[1..]] + parts[1..] == parts;
    }
  }

  predicate IsDigit(c: char) {
    '0' <= c <= '9'
  }

  function DigitValue(c: char): (r: nat)
    requires IsDigit(c)
    ensures r < 10
  {
    (c - '0') as int
  }

  function Digit(n: nat): (c: char)
    requires n < 10
    ensures IsDigit(c) && DigitValue(c) == n
  {
    '0' + n as char
  }

  // str(n) for a natural number.
  function Decimal(n: nat): (s: string)
    ensures s != "" && forall i :: 0 <= i < |s| ==> IsDigit(s[i])
  {
    if n < 10 then [Digit(n)] else Decimal(n / 10) + [Digit(n % 10)]
  }

  // The ten digits, and one digit after the other.
  lemma DecimalIs(n: nat)
    ensures n < 10 ==> Decimal(n) == ["0123456789"[n]]
    ensures n >= 10 ==> Decimal(n) == Decimal(n / 10) + Decimal(n % 10)
  {
    assert Decimal(n % 10) == [Digit(n % 10)];
    if n < 10 {
      assert Digit(n) == "0123456789"[n];
    }
  }

  // The value of a run of decimal digits, most significant first.
  function DigitsValue(s: string): nat
    requires forall i :: 0 <= i < |s| ==> IsDigit(s[i])
  {
    if s == "" then 0 else 10 * DigitsValue(s[..|s| - 1]) + DigitValue(s[|s| - 1])
  }

  lemma {:induction false} DecimalValue(n: nat)
    ensures DigitsValue(Decimal(n)) == n
  {
    var s := Decimal(n);
    if n < 10 {
      assert s[..0] == "";
    } else {
      DecimalValue(n / 10);
      assert s[..|s| - 1] == Decimal(n / 10);
    }
  }

  // Different numbers print differently.
  lemma DecimalInjective(m: nat, n: nat)
    ensures Decimal(m) == Decimal(n) ==> m == n
  {
    DecimalValue(m);
    DecimalValue(n);
  }
}
