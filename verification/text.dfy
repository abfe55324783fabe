/** Python string primitives the program relies on: `str.isspace`,
    `str.strip`, `str.split()` with no separator, and `sep.join(parts)`. */
module Text {

  import opened Wrappers

  /** The characters for which Python's `str.isspace()` holds; `strip()`
      and `split()` with no argument treat exactly these as whitespace. */
  predicate IsSpace(c: char) {
    c in SpaceChars
  }

  const SpaceChars: set<char> :=
    {'\t', '\n', '\U{000B}', '\U{000C}', '\r', '\U{001C}', '\U{001D}', '\U{001E}', '\U{001F}',
     ' ', '\U{0085}', '\U{00A0}', '\U{1680}',
     '\U{2000}', '\U{2001}', '\U{2002}', '\U{2003}', '\U{2004}', '\U{2005}', '\U{2006}',
     '\U{2007}', '\U{2008}', '\U{2009}', '\U{200A}',
     '\U{2028}', '\U{2029}', '\U{202F}', '\U{205F}', '\U{3000}'}

  predicate AllSpace(s: string) {
    forall i :: 0 <= i < |s| ==> IsSpace(s[i])
  }

  predicate NoSpace(s: string) {
    forall i :: 0 <= i < |s| ==> !IsSpace(s[i])
  }

  /** Python's `not s.strip()`: the text is empty or whitespace only. */
  predicate IsBlank(s: string) {
    AllSpace(s)
  }

  /** `s.lstrip()`: drops the leading whitespace and nothing else. */
  function LStrip(s: string): (r: string)
    ensures |r| <= |s| && r == s[|s| - |r|..]
    ensures AllSpace(s[..|s| - |r|])
    ensures |r| == 0 || !IsSpace(r[0])
    decreases |s|
  {
    if |s| > 0 && IsSpace(s[0]) then LStrip(s[1..]) else s
  }

  /** `s.rstrip()`: drops the trailing whitespace and nothing else. */
  function RStrip(s: string): (r: string)
    ensures |r| <= |s| && r == s[..|r|]
    ensures AllSpace(s[|r|..])
    ensures |r| == 0 || !IsSpace(r[|r| - 1])
    decreases |s|
  {
    if |s| > 0 && IsSpace(s[|s| - 1]) then RStrip(s[..|s| - 1]) else s
  }

  /** `s.strip()`: the text between the leading and the trailing
      whitespace. */
  function Strip(s: string): (r: string)
    ensures exists i :: OuterSpace(s, r, i)
    ensures |r| == 0 || (!IsSpace(r[0]) && !IsSpace(r[|r| - 1]))
  {
    var l := LStrip(s);
    var r := RStrip(l);
    StripPieces(s, l, r);
    assert OuterSpace(s, r, |s| - |l|);
    r
  }

  /** `r` sits at position `i` of `s` with only whitespace around it. */
  predicate OuterSpace(s: string, r: string, i: int) {
    0 <= i <= |s| - |r| && r == s[i..i + |r|] && AllSpace(s[..i]) && AllSpace(s[i + |r|..])
  }

  /** The pieces `lstrip` and `rstrip` leave, put together. */
  lemma StripPieces(s: string, l: string, r: string)
    requires |l| <= |s| && l == s[|s| - |l|..] && AllSpace(s[..|s| - |l|])
    requires |l| == 0 || !IsSpace(l[0])
    requires |r| <= |l| && r == l[..|r|] && AllSpace(l[|r|..])
    requires |r| == 0 || !IsSpace(r[|r| - 1])
    ensures OuterSpace(s, r, |s| - |l|)
    ensures |r| == 0 || (!IsSpace(r[0]) && !IsSpace(r[|r| - 1]))
  {
    var i := |s| - |l|;
    SliceOfSuffix(s, i, |r|);
    if |r| > 0 {
      assert r[0] == l[0];
    }
  }

  lemma SliceOfSuffix(s: string, i: nat, n: nat)
    requires i + n <= |s|
    ensures s[i..i + n] == s[i..][..n]
    ensures s[i + n..] == s[i..][n..]
  {
  }

  /** Stripping yields the empty text exactly for blank input. */
  lemma StripEmptyIffBlank(s: string)
    ensures Strip(s) == "" <==> IsBlank(s)
  {
    var r := Strip(s);
    if r == "" {
      var i :| OuterSpace(s, r, i);
      assert s[i + |r|..] == s[i..];
      forall k | 0 <= k < |s| ensures IsSpace(s[k]) {
        if k < i { assert s[..i][k] == s[k]; } else { assert s[i..][k - i] == s[k]; }
      }
    }
  }

  /** A word of `split()`: non-empty and free of whitespace. */
  predicate IsWord(w: string) {
    |w| > 0 && NoSpace(w)
  }

  /** Length of the leading run of non-whitespace characters. */
  function WordLength(s: string): (n: nat)
    ensures n <= |s|
    ensures NoSpace(s[..n])
    ensures n == |s| || IsSpace(s[n])
    decreases |s|
  {
    if |s| == 0 || IsSpace(s[0]) then 0 else 1 + WordLength(s[1..])
  }

  /** `s.split()`: the maximal whitespace-free runs of `s`, in order. */
  function Split(s: string): (ws: seq<string>)
    ensures forall k :: 0 <= k < |ws| ==> IsWord(ws[k])
    decreases |s|
  {
    if |s| == 0 then []
    else if IsSpace(s[0]) then Split(s[1..])
    else
      var n := WordLength(s);
      [s[..n]] + Split(s[n..])
  }

  /** `sep.join(parts)`. */
  function Join(parts: seq<string>, sep: string): string
    decreases |parts|
  {
    if |parts| == 0 then ""
    else if |parts| == 1 then parts[0]
    else parts[0] + sep + Join(parts[1..], sep)
  }

  /** `" ".join(s.split())`: runs of whitespace become one space and the
      ends are trimmed. */
  function NormalizeWhitespace(s: string): string {
    Join(Split(s), " ")
  }

  /** Text in normal form: every whitespace character is a single ASCII
      space with a non-whitespace character on each side. */
  predicate Normalized(r: string) {
    forall i :: 0 <= i < |r| && IsSpace(r[i]) ==>
      r[i] == ' ' && 0 < i < |r| - 1 && !IsSpace(r[i - 1]) && !IsSpace(r[i + 1])
  }

  /** The characters of `s` that are not whitespace, in order. */
  function NonSpace(s: string): (r: string)
    ensures NoSpace(r)
    decreases |s|
  {
    if |s| == 0 then ""
    else if IsSpace(s[0]) then NonSpace(s[1..])
    else [s[0]] + NonSpace(s[1..])
  }

  /** The concatenation of a sequence of strings. */
  function Concat(parts: seq<string>): string
    decreases |parts|
  {
    if |parts| == 0 then "" else parts[0] + Concat(parts[1..])
  }

  lemma {:induction false} NonSpaceAppend(a: string, b: string)
    ensures NonSpace(a + b) == NonSpace(a) + NonSpace(b)
    decreases |a|
  {
    if |a| > 0 {
      assert (a + b)[1..] == a[1..] + b;
      NonSpaceAppend(a[1..], b);
    } else {
      assert a + b == b;
    }
  }

  lemma {:induction false} NonSpaceOfNoSpace(w: string)
    requires NoSpace(w)
    ensures NonSpace(w) == w
    decreases |w|
  {
    if |w| > 0 {
      NonSpaceOfNoSpace(w[1..]);
      assert w == [w[0]] + w[1..];
    }
  }

  lemma {:induction false} NonSpaceOfAllSpace(w: string)
    requires AllSpace(w)
    ensures NonSpace(w) == ""
    decreases |w|
  {
    if |w| > 0 {
      NonSpaceOfAllSpace(w[1..]);
    }
  }

  /** Splitting loses only whitespace. */
  lemma {:induction false} NonSpaceIsConcatOfSplit(s: string)
    ensures NonSpace(s) == Concat(Split(s))
    decreases |s|
  {
    if |s| > 0 {
      if IsSpace(s[0]) {
        NonSpaceIsConcatOfSplit(s[1..]);
      } else {
        var n := WordLength(s);
        assert s == s[..n] + s[n..];
        NonSpaceAppend(s[..n], s[n..]);
        NonSpaceOfNoSpace(s[..n]);
        NonSpaceIsConcatOfSplit(s[n..]);
        assert ([s[..n]] + Split(s[n..]))[1..] == Split(s[n..]);
      }
    }
  }

  /** Joining words with one space and then removing whitespace gives the
      words run together. */
  lemma {:induction false} NonSpaceOfJoin(ws: seq<string>)
    requires forall k :: 0 <= k < |ws| ==> IsWord(ws[k])
    ensures NonSpace(Join(ws, " ")) == Concat(ws)
    decreases |ws|
  {
    if |ws| == 1 {
      NonSpaceOfNoSpace(ws[0]);
    } else if |ws| > 1 {
      NonSpaceOfJoin(ws[1..]);
      NonSpaceAppend(ws[0] + " ", Join(ws[1..], " "));
      NonSpaceAppend(ws[0], " ");
      NonSpaceOfNoSpace(ws[0]);
    }
  }

  /** Splitting the space-joined words gives the words back. */
  lemma {:induction false} SplitJoin(ws: seq<string>)
    requires forall k :: 0 <= k < |ws| ==> IsWord(ws[k])
    ensures Split(Join(ws, " ")) == ws
    decreases |ws|
  {
    if |ws| == 1 {
      SplitWord(ws[0], "");
      assert ws[0] + "" == ws[0];
    } else if |ws| > 1 {
      var rest := Join(ws[1..], " ");
      SplitJoin(ws[1..]);
      assert ws[0] + " " + rest == ws[0] + (" " + rest);
      SplitWord(ws[0], " " + rest);
      assert (" " + rest)[1..] == rest;
    }
  }

  /** Splitting a word followed by text that is empty or starts with
      whitespace gives the word, then the split of the rest. */
  lemma {:induction false} SplitWord(w: string, rest: string)
    requires IsWord(w)
    requires |rest| == 0 || IsSpace(rest[0])
    ensures Split(w + rest) == [w] + Split(rest)
  {
    var s := w + rest;
    WordLengthOfWord(w, rest);
    assert s[..|w|] == w;
    assert s[|w|..] == rest;
  }

  lemma {:induction false} WordLengthOfWord(w: string, rest: string)
    requires NoSpace(w)
    requires |rest| == 0 || IsSpace(rest[0])
    ensures WordLength(w + rest) == |w|
    decreases |w|
  {
    if |w| == 0 {
      assert w + rest == rest;
    } else {
      assert (w + rest)[1..] == w[1..] + rest;
      WordLengthOfWord(w[1..], rest);
    }
  }

  /** Words joined with single spaces are in normal form. */
  lemma {:induction false} JoinNormalized(ws: seq<string>)
    requires forall k :: 0 <= k < |ws| ==> IsWord(ws[k])
    ensures Normalized(Join(ws, " "))
    ensures |ws| > 0 ==> |Join(ws, " ")| > 0 && !IsSpace(Join(ws, " ")[0])
    decreases |ws|
  {
    if |ws| > 1 {
      var w := ws[0];
      var rest := Join(ws[1..], " ");
      JoinNormalized(ws[1..]);
      var r := w + " " + rest;
      assert r == Join(ws, " ");
      forall i | 0 <= i < |r| && IsSpace(r[i])
        ensures r[i] == ' ' && 0 < i < |r| - 1 && !IsSpace(r[i - 1]) && !IsSpace(r[i + 1])
      {
        if i < |w| {
          assert false;
        } else if i == |w| {
          assert r[i + 1] == rest[0];
          assert r[i - 1] == w[|w| - 1];
        } else {
          var j := i - |w| - 1;
          assert r[i] == rest[j];
          assert j > 0;
          assert r[i - 1] == rest[j - 1];
          assert r[i + 1] == rest[j + 1];
        }
      }
    }
  }

  /** The whitespace normalisation used for titles and summaries leaves
      text in normal form — no leading, trailing or doubled whitespace —
      and keeps every other character in order. */
  lemma NormalizeWhitespaceSpec(s: string)
    ensures Normalized(NormalizeWhitespace(s))
    ensures NonSpace(NormalizeWhitespace(s)) == NonSpace(s)
    ensures AllSpace(s) <==> NormalizeWhitespace(s) == ""
  {
    var ws := Split(s);
    JoinNormalized(ws);
    NonSpaceOfJoin(ws);
    NonSpaceIsConcatOfSplit(s);
    if AllSpace(s) {
      NonSpaceOfAllSpace(s);
      ConcatEmptyWords(ws);
    } else {
      var k :| 0 <= k < |s| && !IsSpace(s[k]);
      NonSpaceHasChar(s, k);
    }
  }

  lemma {:induction false} ConcatEmptyWords(ws: seq<string>)
    requires forall k :: 0 <= k < |ws| ==> IsWord(ws[k])
    requires Concat(ws) == ""
    ensures ws == []
  {
  }

  lemma {:induction false} NonSpaceHasChar(s: string, k: int)
    requires 0 <= k < |s| && !IsSpace(s[k])
    ensures NonSpace(s) != ""
    decreases |s|
  {
    if k > 0 && IsSpace(s[0]) {
      NonSpaceHasChar(s[1..], k - 1);
    }
  }

  /** Normalising twice is the same as normalising once. */
  lemma NormalizeWhitespaceIdempotent(s: string)
    ensures NormalizeWhitespace(NormalizeWhitespace(s)) == NormalizeWhitespace(s)
  {
    SplitJoin(Split(s));
  }

  /** Stripping first does not change the normal form. */
  lemma NormalizeIgnoresOuterSpace(s: string)
    ensures NormalizeWhitespace(Strip(s)) == NormalizeWhitespace(s)
  {
    SplitIgnoresLeadingSpace(s);
    SplitIgnoresTrailingSpace(LStrip(s));
  }

  lemma SplitIgnoresLeadingSpace(s: string)
    ensures Split(LStrip(s)) == Split(s)
  {
    var l := LStrip(s);
    assert s == s[..|s| - |l|] + l;
    SplitLeadingSpace(s[..|s| - |l|], l);
  }

  lemma SplitIgnoresTrailingSpace(s: string)
    ensures Split(RStrip(s)) == Split(s)
  {
    var r := RStrip(s);
    assert s == r + s[|r|..];
    SplitTrailingSpace(r, s[|r|..]);
  }

  lemma {:induction false} SplitLeadingSpace(sp: string, t: string)
    requires AllSpace(sp)
    ensures Split(sp + t) == Split(t)
    decreases |sp|
  {
    if |sp| == 0 {
      assert sp + t == t;
    } else {
      assert (sp + t)[1..] == sp[1..] + t;
      SplitLeadingSpace(sp[1..], t);
    }
  }

  lemma {:induction false} SplitTrailingSpace(t: string, sp: string)
    requires AllSpace(sp)
    ensures Split(t + sp) == Split(t)
    decreases |t|
  {
    if |t| == 0 {
      assert t + sp == sp;
      SplitLeadingSpace(sp, "");
      assert sp + "" == sp;
    } else if IsSpace(t[0]) {
      assert (t + sp)[1..] == t[1..] + sp;
      SplitTrailingSpace(t[1..], sp);
    } else {
      var n := WordLength(t);
      if n < |t| {
        WordLengthOfWord(t[..n], t[n..] + sp);
        assert t[..n] + (t[n..] + sp) == t + sp;
        assert t[..n] + t[n..] == t;
        assert (t + sp)[..n] == t[..n];
        assert (t + sp)[n..] == t[n..] + sp;
        SplitTrailingSpace(t[n..], sp);
      } else {
        WordLengthOfWord(t, sp);
        assert (t + sp)[..n] == t;
        assert (t + sp)[n..] == sp;
        assert t[..n] == t;
        SplitLeadingSpace(sp, "");
        assert sp + "" == sp;
        assert t[n..] == "";
      }
    }
  }

  /** `s.startswith(p)`. */
  predicate StartsWith(s: string, p: string) {
    |p| <= |s| && s[..|p|] == p
  }

  /** `s.find(c)` as an option: the position of the first `c`. */
  function IndexOf(s: string, c: char): (r: Option<nat>)
    ensures r.None? <==> c !in s
    ensures r.Some? ==> r.value < |s| && s[r.value] == c && c !in s[..r.value]
    decreases |s|
  {
    if |s| == 0 then None
    else if s[0] == c then Some(0)
    else match IndexOf(s[1..], c)
      case None => None
      case Some(i) => Some(i + 1)
  }

  /** The first `c` of `x + [c] + y` is the one after `x` when `x` has none. */
  lemma IndexOfAfter(x: string, c: char, y: string)
    requires c !in x
    ensures IndexOf(x + [c] + y, c) == Some(|x|)
  {
    var s := x + [c] + y;
    var r := IndexOf(s, c);
    assert s[|x|] == c;
    assert r.Some?;
  }

  /** `sep.join` distributes over appending one more part. */
  lemma {:induction false} JoinAppend(parts: seq<string>, sep: string, p: string)
    requires |parts| > 0
    ensures Join(parts + [p], sep) == Join(parts, sep) + sep + p
    decreases |parts|
  {
    if |parts| == 1 {
      assert parts + [p] == [parts[0], p];
    } else {
      assert (parts + [p])[1..] == parts[1..] + [p];
      JoinAppend(parts[1..], sep, p);
    }
  }

  predicate IsDigit(c: char) {
    '0' <= c <= '9'
  }

  function DigitChar(d: nat): (c: char)
    requires d < 10
    ensures IsDigit(c) && (c as int) - ('0' as int) == d
  {
    ('0' as int + d) as char
  }

  /** `str(n)` for a non-negative integer: its decimal digits, without
      leading zeros. */
  function NatToString(n: nat): (s: string)
    ensures |s| > 0
    ensures forall k :: 0 <= k < |s| ==> IsDigit(s[k])
    ensures s[0] == '0' ==> n == 0
    decreases n
  {
    if n < 10 then [DigitChar(n)] else NatToString(n / 10) + [DigitChar(n % 10)]
  }

  /** The number a string of decimal digits denotes. */
  function DigitsValue(s: string): nat
    requires forall k :: 0 <= k < |s| ==> IsDigit(s[k])
    decreases |s|
  {
    if |s| == 0 then 0
    else DigitsValue(s[..|s| - 1]) * 10 + DigitValue(s[|s| - 1])
  }

  function DigitValue(c: char): nat
    requires IsDigit(c)
  {
    (c as int) - ('0' as int)
  }

  /** Reading back the digits `NatToString` writes gives the number. */
  lemma {:induction false} NatToStringRoundTrip(n: nat)
    ensures DigitsValue(NatToString(n)) == n
    decreases n
  {
    if n >= 10 {
      NatToStringRoundTrip(n / 10);
      var s := NatToString(n);
      assert s[..|s| - 1] == NatToString(n / 10);
    }
  }

  /** `str(n)` for any integer: a minus sign before the digits of a negative
      number. */
  function IntToString(n: int): (s: string)
    ensures |s| > 0
    ensures n < 0 <==> s[0] == '-'
  {
    if n < 0 then "-" + NatToString(-n) else NatToString(n)
  }

  /** The number written by `IntToString`, or nothing for text that is not
      an optional minus sign followed by digits. */
  function ParseInt(s: string): (r: Option<int>)
    ensures |s| > 0 && (forall k :: 0 <= k < |s| ==> IsDigit(s[k])) ==> r.Some?
  {
    if |s| > 0 && s[0] == '-' && |s| > 1 && (forall k :: 1 <= k < |s| ==> IsDigit(s[k])) then
      var v: int := DigitsValue(s[1..]);
      Some(-v)
    else if |s| > 0 && (forall k :: 0 <= k < |s| ==> IsDigit(s[k])) then
      Some(DigitsValue(s))
    else None
  }

  /** Decimal formatting loses nothing: the text reads back as the number,
      so different numbers get different texts. */
  lemma IntToStringRoundTrip(n: int)
    ensures ParseInt(IntToString(n)) == Some(n)
  {
    if n < 0 {
      NatToStringRoundTrip(-n);
      assert IntToString(n)[1..] == NatToString(-n);
    } else {
      NatToStringRoundTrip(n);
    }
  }
}
